// What the AVL algorithms do to the shape of a tree: rotations, the rebalancing
// walk up a zipper, insertion and removal.  PriceLevelTree proves that the
// pointer code computes exactly these shapes.
module AvlShape {
  import opened Levels
  import opened LevelTree

  // ---------- The algorithms ----------

  function RotateRight(t: Tree): Tree
    requires t.Node? && t.left.Node?
  {
    Node(t.left.left, t.left.lv, Node(t.left.right, t.lv, t.right))
  }

  function RotateLeft(t: Tree): Tree
    requires t.Node? && t.right.Node?
  {
    Node(Node(t.left, t.lv, t.right.left), t.right.lv, t.right.right)
  }

  // Repairs one node whose subtrees differ in height by more than one.
  function FixOne(t: Tree): Tree
    requires t.Node?
  {
    if BalanceFactor(t) > 1 then
      if BalanceFactor(t.left) < 0 then
        RotateRight(Node(RotateLeft(t.left), t.lv, t.right))
      else
        RotateRight(t)
    else if BalanceFactor(t) < -1 then
      if BalanceFactor(t.right) > 0 then
        RotateLeft(Node(t.left, t.lv, RotateRight(t.right)))
      else
        RotateLeft(t)
    else
      t
  }

  // Puts t into the hole of c and repairs every node from there to the root.
  function Rebalance(c: Ctx, t: Tree): Tree
    decreases c
  {
    match c
    case Top => t
    case InLeft(up, n, r) => Rebalance(up, FixOne(Node(t, n, r)))
    case InRight(l, n, up) => Rebalance(up, FixOne(Node(l, n, t)))
  }

  // Where a search for a price falls off the tree.
  function Descend(t: Tree, c: Ctx, price: int): Ctx {
    match t
    case Leaf => c
    case Node(l, n, r) =>
      if price < n.price then Descend(l, InLeft(c, n, r), price)
      else Descend(r, InRight(l, n, c), price)
  }

  function Inserted(t: Tree, n: PriceLevel): Tree {
    Rebalance(Descend(t, Top, n.price), Node(Leaf, n, Leaf))
  }

  // The left-most node of a tree, what hangs to its right, and the way to it.
  function MinNode(t: Tree): PriceLevel
    requires t.Node?
  {
    if t.left.Leaf? then t.lv else MinNode(t.left)
  }

  function MinRight(t: Tree): Tree
    requires t.Node?
  {
    if t.left.Leaf? then t.right else MinRight(t.left)
  }

  function MinPath(t: Tree, c: Ctx): Ctx
    requires t.Node?
  {
    if t.left.Leaf? then c else MinPath(t.left, InLeft(c, t.lv, t.right))
  }

  // Removal of the node that stands at c with subtrees l and r: with two
  // subtrees, its in-order successor takes its place.
  function Removed(c: Ctx, l: Tree, r: Tree): Tree {
    if l.Node? && r.Node? then
      Rebalance(MinPath(r, InRight(l, MinNode(r), c)), MinRight(r))
    else
      Rebalance(c, if r.Node? then r else l)
  }

  // ---------- Contents are kept ----------

  // t and u hold the same nodes in the same order.
  ghost predicate SameContents(t: Tree, u: Tree) {
    InOrder(t) == InOrder(u) && Nodes(t) == Nodes(u) && (Distinct(t) ==> Distinct(u))
  }

  lemma RotateRightContents(t: Tree)
    requires t.Node? && t.left.Node?
    ensures SameContents(t, RotateRight(t))
  {
    var a, b, c := InOrder(t.left.left), InOrder(t.left.right), InOrder(t.right);
    assert (a + [t.left.lv] + b) + [t.lv] + c == a + [t.left.lv] + (b + [t.lv] + c);
    if Distinct(t) {
      assert Distinct(t.left);
      assert Distinct(Node(t.left.right, t.lv, t.right));
    }
  }

  lemma RotateLeftContents(t: Tree)
    requires t.Node? && t.right.Node?
    ensures SameContents(t, RotateLeft(t))
  {
    var a, b, c := InOrder(t.left), InOrder(t.right.left), InOrder(t.right.right);
    assert (a + [t.lv] + b) + [t.right.lv] + c == a + [t.lv] + (b + [t.right.lv] + c);
    if Distinct(t) {
      assert Distinct(t.right);
      assert Distinct(Node(t.left, t.lv, t.right.left));
    }
  }

  lemma FixOneContents(t: Tree)
    requires t.Node?
    ensures SameContents(t, FixOne(t))
  {
    if BalanceFactor(t) > 1 {
      if BalanceFactor(t.left) < 0 {
        RotateLeftContents(t.left);
        RotateRightContents(Node(RotateLeft(t.left), t.lv, t.right));
      } else {
        RotateRightContents(t);
      }
    } else if BalanceFactor(t) < -1 {
      if BalanceFactor(t.right) > 0 {
        RotateRightContents(t.right);
        RotateLeftContents(Node(t.left, t.lv, RotateRight(t.right)));
      } else {
        RotateLeftContents(t);
      }
    }
  }

  lemma PlugContents(c: Ctx, t: Tree, u: Tree)
    requires SameContents(t, u)
    ensures SameContents(Plug(c, t), Plug(c, u))
  {
    PlugInOrder(c, t);
    PlugInOrder(c, u);
    PlugNodes(c, t);
    PlugNodes(c, u);
    PlugDistinct(c, t);
    PlugDistinct(c, u);
  }

  // The walk up rearranges nodes but neither loses, adds nor reorders any.
  lemma {:induction false} RebalanceContents(c: Ctx, t: Tree)
    ensures SameContents(Plug(c, t), Rebalance(c, t))
    decreases c
  {
    match c
    case Top =>
    case InLeft(up, n, r) =>
      FixOneContents(Node(t, n, r));
      PlugContents(up, Node(t, n, r), FixOne(Node(t, n, r)));
      RebalanceContents(up, FixOne(Node(t, n, r)));
    case InRight(l, n, up) =>
      FixOneContents(Node(l, n, t));
      PlugContents(up, Node(l, n, t), FixOne(Node(l, n, t)));
      RebalanceContents(up, FixOne(Node(l, n, t)));
  }

  // ---------- Balance is restored ----------

  // f is balanced and at most one level higher than the higher of l and r.
  predicate Repaired(f: Tree, l: Tree, r: Tree) {
    Balanced(f) && Max(Height(l), Height(r)) <= Height(f) <= Max(Height(l), Height(r)) + 1
  }

  lemma FixLeftHeavy(l: Tree, n: PriceLevel, r: Tree)
    requires Balanced(l) && Balanced(r) && Height(l) == Height(r) + 2
    ensures Repaired(FixOne(Node(l, n, r)), l, r)
  {
    if BalanceFactor(l) < 0 {
      assert l.right.Node?;
    }
  }

  lemma FixRightHeavy(l: Tree, n: PriceLevel, r: Tree)
    requires Balanced(l) && Balanced(r) && Height(r) == Height(l) + 2
    ensures Repaired(FixOne(Node(l, n, r)), l, r)
  {
    if BalanceFactor(r) > 0 {
      assert r.left.Node?;
    }
  }

  lemma FixOneBalanced(l: Tree, n: PriceLevel, r: Tree)
    requires Balanced(l) && Balanced(r)
    requires -2 <= Height(l) - Height(r) <= 2
    ensures Repaired(FixOne(Node(l, n, r)), l, r)
    ensures -1 <= Height(l) - Height(r) <= 1 ==> FixOne(Node(l, n, r)) == Node(l, n, r)
  {
    if Height(l) == Height(r) + 2 {
      FixLeftHeavy(l, n, r);
    } else if Height(r) == Height(l) + 2 {
      FixRightHeavy(l, n, r);
    }
  }

  lemma {:induction false} PlugBalanced(c: Ctx, t: Tree)
    requires Balanced(Plug(c, t))
    ensures Balanced(t)
  {
    match c
    case Top =>
    case InLeft(up, n, r) => PlugBalanced(up, Node(t, n, r));
    case InRight(l, n, up) => PlugBalanced(up, Node(l, n, t));
  }

  // One step of the walk: t0 was the subtree beside a sibling, t replaces it.
  lemma FixOneStep(t0: Tree, t: Tree, n: PriceLevel, sibling: Tree)
    requires Balanced(t) && Balanced(sibling)
    requires -1 <= Height(t) - Height(t0) <= 1 && -1 <= Height(t0) - Height(sibling) <= 1
    ensures Balanced(FixOne(Node(t, n, sibling)))
    ensures -1 <= Height(FixOne(Node(t, n, sibling))) - Height(Node(t0, n, sibling)) <= 1
    ensures Balanced(FixOne(Node(sibling, n, t)))
    ensures -1 <= Height(FixOne(Node(sibling, n, t))) - Height(Node(sibling, n, t0)) <= 1
  {
    FixOneBalanced(t, n, sibling);
    FixOneBalanced(sibling, n, t);
    assert Height(Node(t, n, sibling)) == 1 + Max(Height(t), Height(sibling)) == Height(Node(sibling, n, t));
  }

  // If a balanced subtree is replaced by a balanced one whose height differs by
  // at most one, the walk up restores balance everywhere.
  lemma {:induction false} RebalanceBalanced(c: Ctx, t0: Tree, t: Tree)
    requires Balanced(Plug(c, t0)) && Balanced(t)
    requires -1 <= Height(t) - Height(t0) <= 1
    ensures Balanced(Rebalance(c, t))
    decreases c
  {
    match c
    case Top =>
    case InLeft(up, n, r) =>
      PlugBalanced(up, Node(t0, n, r));
      FixOneStep(t0, t, n, r);
      RebalanceBalanced(up, Node(t0, n, r), FixOne(Node(t, n, r)));
    case InRight(l, n, up) =>
      PlugBalanced(up, Node(l, n, t0));
      FixOneStep(t0, t, n, l);
      RebalanceBalanced(up, Node(l, n, t0), FixOne(Node(l, n, t)));
  }

  // ---------- Insertion ----------

  lemma {:induction false} DescendPlug(t: Tree, c: Ctx, price: int)
    ensures Plug(Descend(t, c, price), Leaf) == Plug(c, t)
  {
    match t
    case Leaf =>
    case Node(l, n, r) =>
      if price < n.price {
        DescendPlug(l, InLeft(c, n, r), price);
      } else {
        DescendPlug(r, InRight(l, n, c), price);
      }
  }

  // No level has this price.
  predicate Fresh(s: seq<PriceLevel>, price: int) {
    forall k :: 0 <= k < |s| ==> s[k].price != price
  }

  lemma FreshTake(a: seq<PriceLevel>, n: PriceLevel, b: seq<PriceLevel>, price: int)
    requires Fresh(a + [n] + b, price)
    ensures Fresh(a, price) && n.price != price && Fresh(b, price)
  {
    var s := a + [n] + b;
    assert forall k :: 0 <= k < |a| ==> s[k] == a[k];
    assert s[|a|] == n;
    forall k | 0 <= k < |b| ensures b[k].price != price {
      assert s[|a| + 1 + k] == b[k];
    }
  }

  // The search ends exactly between the smaller and the greater prices.
  lemma {:induction false} DescendSplits(t: Tree, c: Ctx, price: int)
    requires Sorted(InOrder(t)) && Fresh(InOrder(t), price)
    requires AllBelow(Before(c), price) && AllAbove(After(c), price)
    ensures AllBelow(Before(Descend(t, c, price)), price)
    ensures AllAbove(After(Descend(t, c, price)), price)
  {
    match t
    case Leaf =>
    case Node(l, n, r) =>
      SortedTake(InOrder(l), n, InOrder(r));
      FreshTake(InOrder(l), n, InOrder(r), price);
      if price < n.price {
        AboveAll(InOrder(r), n, price, After(c));
        DescendSplits(l, InLeft(c, n, r), price);
      } else {
        BelowAll(InOrder(l), n, price, Before(c));
        DescendSplits(r, InRight(l, n, c), price);
      }
  }

  lemma AboveAll(r: seq<PriceLevel>, n: PriceLevel, price: int, rest: seq<PriceLevel>)
    requires AllAbove(r, n.price) && price < n.price && AllAbove(rest, price)
    ensures AllAbove([n] + r + rest, price)
  {
    assert forall m :: m in r ==> price < m.price;
    assert forall m :: m in [n] + r + rest ==> price < m.price;
  }

  lemma BelowAll(l: seq<PriceLevel>, n: PriceLevel, price: int, before: seq<PriceLevel>)
    requires AllBelow(l, n.price) && n.price < price && AllBelow(before, price)
    ensures AllBelow(before + l + [n], price)
  {
    assert forall m :: m in l ==> m.price < price;
    assert forall m :: m in before + l + [n] ==> m.price < price;
  }

  // s with n put between the smaller and the greater prices, nothing else moved.
  ghost predicate InsertedAt(s: seq<PriceLevel>, n: PriceLevel, s': seq<PriceLevel>) {
    exists k :: 0 <= k <= |s| && s' == s[..k] + [n] + s[k..] &&
      AllBelow(s[..k], n.price) && AllAbove(s[k..], n.price)
  }

  lemma InsertedSorted(s: seq<PriceLevel>, a: seq<PriceLevel>, n: PriceLevel, b: seq<PriceLevel>)
    requires Sorted(s) && s == a + [] + b
    requires AllBelow(a, n.price) && AllAbove(b, n.price)
    ensures InsertedAt(s, n, a + [n] + b) && Sorted(a + [n] + b)
  {
    assert a == s[..|a|] && b == s[|a|..];
    SortedJoin(a, n, b);
  }

  lemma InsertedContents(t: Tree, n: PriceLevel)
    ensures var c := Descend(t, Top, n.price);
      InOrder(t) == Before(c) + [] + After(c) && InOrder(Inserted(t, n)) == Before(c) + [n] + After(c)
    ensures Nodes(Inserted(t, n)) == Nodes(t) + {n}
  {
    var c := Descend(t, Top, n.price);
    DescendPlug(t, Top, n.price);
    RebalanceContents(c, Node(Leaf, n, Leaf));
    PlugInOrder(c, Leaf);
    PlugInOrder(c, Node(Leaf, n, Leaf));
    assert InOrder(Node(Leaf, n, Leaf)) == [n];
    PlugNodes(c, Leaf);
    PlugNodes(c, Node(Leaf, n, Leaf));
  }

  // Inserting a fresh price keeps an AVL tree one and puts the node at its
  // sorted place among the others.
  lemma InsertedCorrect(t: Tree, n: PriceLevel)
    requires Balanced(t) && Sorted(InOrder(t))
    requires Fresh(InOrder(t), n.price)
    ensures Balanced(Inserted(t, n)) && Sorted(InOrder(Inserted(t, n)))
    ensures InsertedAt(InOrder(t), n, InOrder(Inserted(t, n)))
  {
    var c := Descend(t, Top, n.price);
    DescendPlug(t, Top, n.price);
    RebalanceBalanced(c, Leaf, Node(Leaf, n, Leaf));
    InsertedContents(t, n);
    DescendSplits(t, Top, n.price);
    InsertedSorted(InOrder(t), Before(c), n, After(c));
  }

  // ---------- Removal ----------

  lemma {:induction false} MinPathPlug(t: Tree, c: Ctx)
    requires t.Node?
    ensures Plug(MinPath(t, c), Node(Leaf, MinNode(t), MinRight(t))) == Plug(c, t)
    ensures MinNode(t) in Nodes(t)
  {
    if t.left.Node? {
      MinPathPlug(t.left, InLeft(c, t.lv, t.right));
    }
  }

  // Cutting the left-most node out of t leaves the rest in order.
  lemma {:induction false} MinPathInOrder(t: Tree, c: Ctx)
    requires t.Node?
    ensures Before(MinPath(t, c)) == Before(c)
    ensures [MinNode(t)] + InOrder(MinRight(t)) + After(MinPath(t, c)) == InOrder(t) + After(c)
  {
    if t.left.Node? {
      var l, n, r := t.left, t.lv, t.right;
      MinPathInOrder(l, InLeft(c, n, r));
      assert MinPath(t, c) == MinPath(l, InLeft(c, n, r)) && MinNode(t) == MinNode(l) && MinRight(t) == MinRight(l);
      assert After(InLeft(c, n, r)) == [n] + InOrder(r) + After(c) && InOrder(t) == InOrder(l) + [n] + InOrder(r);
      hide InOrder, After, MinPath, MinNode, MinRight;
      Regroup(InOrder(l), n, InOrder(r), After(c));
      assert InOrder(l) + [n] + InOrder(r) + After(c) == InOrder(t) + After(c);
    }
  }

  lemma {:induction false} PlugBalancedSwap(c: Ctx, t: Tree, u: Tree)
    requires Balanced(Plug(c, t)) && Balanced(u) && Height(u) == Height(t)
    ensures Balanced(Plug(c, u))
  {
    match c
    case Top =>
    case InLeft(up, n, r) =>
      PlugBalanced(up, Node(t, n, r));
      PlugBalancedSwap(up, Node(t, n, r), Node(u, n, r));
    case InRight(l, n, up) =>
      PlugBalanced(up, Node(l, n, t));
      PlugBalancedSwap(up, Node(l, n, t), Node(l, n, u));
  }

  lemma Regroup(low: seq<PriceLevel>, n: PriceLevel, a: seq<PriceLevel>, b: seq<PriceLevel>)
    ensures low + [n] + (a + b) == low + ([n] + a + b) && low + [n] + a + b == low + ([n] + a + b)
  {
  }

  // The order of the nodes once the node between l and r is gone.
  lemma RemovedContents(c: Ctx, l: Tree, r: Tree)
    ensures InOrder(Removed(c, l, r)) == Before(c) + InOrder(l) + (InOrder(r) + After(c))
  {
    hide InOrder, MinNode, MinRight, MinPath, Rebalance, Plug;
    if l.Node? && r.Node? {
      var s, outer := MinNode(r), InRight(l, MinNode(r), c);
      RebalanceContents(MinPath(r, outer), MinRight(r));
      PlugInOrder(MinPath(r, outer), MinRight(r));
      MinPathInOrder(r, outer);
      assert Before(outer) == Before(c) + InOrder(l) + [s] && After(outer) == After(c);
      Regroup(Before(c) + InOrder(l), s, InOrder(MinRight(r)), After(MinPath(r, outer)));
    } else {
      RebalanceContents(c, if r.Node? then r else l);
      PlugInOrder(c, if r.Node? then r else l);
      LeafEmpty();
    }
  }

  lemma LeafEmpty()
    ensures InOrder(Leaf) == []
  {
  }

  lemma RemovedBalanced(c: Ctx, l: Tree, n: PriceLevel, r: Tree)
    requires Balanced(Plug(c, Node(l, n, r)))
    ensures Balanced(Removed(c, l, r))
  {
    PlugBalanced(c, Node(l, n, r));
    if l.Node? && r.Node? {
      var s, outer := MinNode(r), InRight(l, MinNode(r), c);
      PlugBalancedSwap(c, Node(l, n, r), Node(l, s, r));
      MinPathPlug(r, outer);
      PlugBalanced(MinPath(r, outer), Node(Leaf, s, MinRight(r)));
      RebalanceBalanced(MinPath(r, outer), Node(Leaf, s, MinRight(r)), MinRight(r));
    } else {
      RebalanceBalanced(c, Node(l, n, r), if r.Node? then r else l);
    }
  }

  // s without the one occurrence of n, nothing else moved.
  ghost predicate RemovedFrom(s: seq<PriceLevel>, n: PriceLevel, s': seq<PriceLevel>) {
    exists k :: 0 <= k < |s| && s[k] == n && s' == s[..k] + s[k + 1..]
  }

  // Removing any node of an AVL tree leaves an AVL tree of the other nodes in
  // their old order.
  lemma RemovedCorrect(c: Ctx, l: Tree, n: PriceLevel, r: Tree)
    requires Balanced(Plug(c, Node(l, n, r))) && Sorted(InOrder(Plug(c, Node(l, n, r))))
    ensures Balanced(Removed(c, l, r)) && Sorted(InOrder(Removed(c, l, r)))
    ensures RemovedFrom(InOrder(Plug(c, Node(l, n, r))), n, InOrder(Removed(c, l, r)))
  {
    RemovedBalanced(c, l, n, r);
    RemovedContents(c, l, r);
    PlugNodeInOrder(c, l, n, r);
    RemovedSorted(Before(c) + InOrder(l), n, InOrder(r) + After(c));
  }

  lemma PlugNodeInOrder(c: Ctx, l: Tree, n: PriceLevel, r: Tree)
    ensures InOrder(Plug(c, Node(l, n, r))) == Before(c) + InOrder(l) + [n] + (InOrder(r) + After(c))
  {
    PlugInOrder(c, Node(l, n, r));
  }

  lemma RemovedSorted(a: seq<PriceLevel>, n: PriceLevel, b: seq<PriceLevel>)
    requires Sorted(a + [n] + b)
    ensures RemovedFrom(a + [n] + b, n, a + b) && Sorted(a + b)
  {
    var s := a + [n] + b;
    assert s[|a|] == n && s[..|a|] == a && s[|a| + 1..] == b;
    SortedTake(a, n, b);
  }

  // ---------- Every node of a tree stands somewhere ----------

  lemma {:induction false} Locate(t: Tree, outer: Ctx, n: PriceLevel) returns (c: Ctx, l: Tree, r: Tree)
    requires n in Nodes(t)
    ensures Plug(c, Node(l, n, r)) == Plug(outer, t)
  {
    if t.lv == n {
      c, l, r := outer, t.left, t.right;
    } else if n in Nodes(t.left) {
      c, l, r := Locate(t.left, InLeft(outer, t.lv, t.right), n);
    } else {
      c, l, r := Locate(t.right, InRight(t.left, t.lv, outer), n);
    }
  }

  // ---------- Height is logarithmic in size ----------

  function Fib(n: nat): nat {
    if n < 2 then n else Fib(n - 1) + Fib(n - 2)
  }

  lemma {:induction false} FibMonotone(m: nat, n: nat)
    requires m <= n
    ensures Fib(m) <= Fib(n)
    decreases n
  {
    if m < n {
      FibMonotone(m, n - 1);
      assert Fib(n - 1) <= Fib(n);
    }
  }

  // A balanced tree of height h has at least Fib(h + 2) - 1 nodes.
  lemma {:induction false} BalancedSize(t: Tree)
    requires Balanced(t)
    ensures Fib(Height(t) + 2) <= |InOrder(t)| + 1
  {
    hide InOrder, Fib;
    match t
    case Leaf =>
      LeafSize();
    case Node(l, n, r) =>
      BalancedSize(l);
      BalancedSize(r);
      NodeSize(l, n, r);
      FibSum(Height(l) + 2, Height(r) + 2);
  }

  lemma LeafSize()
    ensures Fib(2) <= |InOrder(Leaf)| + 1
  {
  }

  lemma NodeSize(l: Tree, n: PriceLevel, r: Tree)
    ensures |InOrder(Node(l, n, r))| == |InOrder(l)| + 1 + |InOrder(r)|
  {
  }

  lemma FibSum(a: nat, b: nat)
    requires a > 0 && b > 0 && -1 <= a - b <= 1
    ensures Fib(Max(a, b) + 1) <= Fib(a) + Fib(b)
  {
    var n := Max(a, b);
    FibMonotone(n - 1, a);
    FibMonotone(n - 1, b);
    assert Fib(n + 1) == Fib(n) + Fib(n - 1);
  }

  function Pow2(k: nat): nat {
    if k == 0 then 1 else 2 * Pow2(k - 1)
  }

  lemma {:induction false} FibDoubles(k: nat)
    ensures Pow2(k) <= Fib(2 * k + 2)
  {
    if k > 0 {
      FibDoubles(k - 1);
      FibMonotone(2 * k, 2 * k + 1);
      assert Fib(2 * k + 2) == Fib(2 * k + 1) + Fib(2 * k);
    }
  }

  // How many nodes stand above the hole of a zipper: the length of the path to it.
  function Depth(c: Ctx): nat {
    match c
    case Top => 0
    case InLeft(up, _, _) => 1 + Depth(up)
    case InRight(_, _, up) => 1 + Depth(up)
  }

  lemma {:induction false} DepthWithin(c: Ctx, t: Tree)
    ensures Depth(c) + Height(t) <= Height(Plug(c, t))
  {
    match c
    case Top =>
    case InLeft(up, n, r) => DepthWithin(up, Node(t, n, r));
    case InRight(l, n, up) => DepthWithin(up, Node(l, n, t));
  }

  // No path of an AVL tree of m nodes is longer than 2 * log2(m + 1) + 1.
  lemma PathLogarithmic(c: Ctx, t: Tree)
    requires Balanced(Plug(c, t))
    ensures Pow2(Depth(c) / 2) <= |InOrder(Plug(c, t))| + 1
  {
    var k, whole := Depth(c) / 2, Plug(c, t);
    BalancedSize(whole);
    DepthWithin(c, t);
    FibDoubles(k);
    FibMonotone(2 * k + 2, Height(whole) + 2);
  }

  // So neither is the descent to where a price belongs, nor the walk back up from there.
  lemma DescentLogarithmic(t: Tree, price: int)
    requires Balanced(t)
    ensures Pow2(Depth(Descend(t, Top, price)) / 2) <= |InOrder(t)| + 1
  {
    DescendPlug(t, Top, price);
    PathLogarithmic(Descend(t, Top, price), Leaf);
  }
}
