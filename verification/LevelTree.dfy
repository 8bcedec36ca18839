// The shape of an AVL tree of price levels as a value, and the zipper that says
// where in a tree the algorithms currently stand.  The heap algorithms of
// PriceLevelTree are proved equal to the functions of this module; what the
// functions achieve (order, balance, contents) is proved here.
module LevelTree {
  import opened Levels

  datatype Tree = Leaf | Node(left: Tree, lv: PriceLevel, right: Tree)

  // A tree with one subtree cut out.  The innermost frame comes first, so
  // walking up the tree peels frames off the front.
  datatype Ctx =
    | Top
    | InLeft(up: Ctx, lv: PriceLevel, right: Tree)
    | InRight(left: Tree, lv: PriceLevel, up: Ctx)

  // ---------- Contents ----------

  ghost function Nodes(t: Tree): set<PriceLevel> {
    match t
    case Leaf => {}
    case Node(l, n, r) => Nodes(l) + {n} + Nodes(r)
  }

  ghost function CtxNodes(c: Ctx): set<PriceLevel> {
    match c
    case Top => {}
    case InLeft(up, n, r) => CtxNodes(up) + {n} + Nodes(r)
    case InRight(l, n, up) => CtxNodes(up) + {n} + Nodes(l)
  }

  function InOrder(t: Tree): seq<PriceLevel> {
    match t
    case Leaf => []
    case Node(l, n, r) => InOrder(l) + [n] + InOrder(r)
  }

  // What comes before and after the hole of a zipper.
  function Before(c: Ctx): seq<PriceLevel> {
    match c
    case Top => []
    case InLeft(up, n, r) => Before(up)
    case InRight(l, n, up) => Before(up) + InOrder(l) + [n]
  }

  function After(c: Ctx): seq<PriceLevel> {
    match c
    case Top => []
    case InLeft(up, n, r) => [n] + InOrder(r) + After(up)
    case InRight(l, n, up) => After(up)
  }

  function Plug(c: Ctx, t: Tree): Tree {
    match c
    case Top => t
    case InLeft(up, n, r) => Plug(up, Node(t, n, r))
    case InRight(l, n, up) => Plug(up, Node(l, n, t))
  }

  // ---------- Well-formedness ----------

  function Height(t: Tree): nat {
    match t
    case Leaf => 0
    case Node(l, _, r) => 1 + Max(Height(l), Height(r))
  }

  function Max(a: int, b: int): int { if a < b then b else a }

  function BalanceFactor(t: Tree): int
    requires t.Node?
  {
    Height(t.left) - Height(t.right)
  }

  predicate Balanced(t: Tree) {
    match t
    case Leaf => true
    case Node(l, _, r) =>
      -1 <= Height(l) - Height(r) <= 1 && Balanced(l) && Balanced(r)
  }

  // Strictly increasing prices.
  predicate Sorted(s: seq<PriceLevel>) {
    forall i, j :: 0 <= i < j < |s| ==> s[i].price < s[j].price
  }

  // No node object occurs twice.
  ghost predicate Distinct(t: Tree) {
    match t
    case Leaf => true
    case Node(l, n, r) =>
      n !in Nodes(l) && n !in Nodes(r) && Nodes(l) !! Nodes(r) && Distinct(l) && Distinct(r)
  }

  ghost predicate CtxDistinct(c: Ctx) {
    match c
    case Top => true
    case InLeft(up, n, r) =>
      n !in CtxNodes(up) && n !in Nodes(r) && CtxNodes(up) !! Nodes(r) && CtxDistinct(up) && Distinct(r)
    case InRight(l, n, up) =>
      n !in CtxNodes(up) && n !in Nodes(l) && CtxNodes(up) !! Nodes(l) && CtxDistinct(up) && Distinct(l)
  }

  // ---------- Facts about zippers ----------

  lemma {:induction false} PlugInOrder(c: Ctx, t: Tree)
    ensures InOrder(Plug(c, t)) == Before(c) + InOrder(t) + After(c)
  {
    match c
    case Top =>
    case InLeft(up, n, r) => PlugInOrder(up, Node(t, n, r));
    case InRight(l, n, up) => PlugInOrder(up, Node(l, n, t));
  }

  lemma {:induction false} PlugNodes(c: Ctx, t: Tree)
    ensures Nodes(Plug(c, t)) == CtxNodes(c) + Nodes(t)
  {
    match c
    case Top =>
    case InLeft(up, n, r) => PlugNodes(up, Node(t, n, r));
    case InRight(l, n, up) => PlugNodes(up, Node(l, n, t));
  }

  lemma {:induction false} PlugDistinct(c: Ctx, t: Tree)
    ensures Distinct(Plug(c, t)) <==> CtxDistinct(c) && Distinct(t) && CtxNodes(c) !! Nodes(t)
  {
    match c
    case Top =>
    case InLeft(up, n, r) => PlugDistinct(up, Node(t, n, r));
    case InRight(l, n, up) => PlugDistinct(up, Node(l, n, t));
  }

  // The in-order sequence lists exactly the nodes.
  lemma {:induction false} NodeAt(t: Tree, k: nat)
    requires k < |InOrder(t)|
    ensures InOrder(t)[k] in Nodes(t)
  {
    var m := |InOrder(t.left)|;
    if k < m {
      NodeAt(t.left, k);
    } else if k > m {
      NodeAt(t.right, k - m - 1);
    }
  }

  lemma {:induction false} NodeIndex(t: Tree, n: PriceLevel) returns (k: nat)
    requires n in Nodes(t)
    ensures k < |InOrder(t)| && InOrder(t)[k] == n
  {
    if n in Nodes(t.left) {
      k := NodeIndex(t.left, n);
    } else if n == t.lv {
      k := |InOrder(t.left)|;
    } else {
      k := NodeIndex(t.right, n);
      k := |InOrder(t.left)| + 1 + k;
    }
  }

  predicate AllBelow(s: seq<PriceLevel>, p: int) {
    forall i :: 0 <= i < |s| ==> s[i].price < p
  }

  predicate AllAbove(s: seq<PriceLevel>, p: int) {
    forall i :: 0 <= i < |s| ==> p < s[i].price
  }

  // Strict order of a concatenation, taken apart and put together.
  lemma SortedTake(a: seq<PriceLevel>, n: PriceLevel, b: seq<PriceLevel>)
    requires Sorted(a + [n] + b)
    ensures Sorted(a) && AllBelow(a, n.price)
    ensures Sorted(b) && AllAbove(b, n.price)
  {
    var s := a + [n] + b;
    forall i | 0 <= i < |a| ensures a[i].price < n.price {
      assert s[i] == a[i] && s[|a|] == n;
    }
    forall i | 0 <= i < |b| ensures n.price < b[i].price {
      assert s[|a| + 1 + i] == b[i] && s[|a|] == n;
    }
    forall i, j | 0 <= i < j < |a| ensures a[i].price < a[j].price {
      assert s[i] == a[i] && s[j] == a[j];
    }
    forall i, j | 0 <= i < j < |b| ensures b[i].price < b[j].price {
      assert s[|a| + 1 + i] == b[i] && s[|a| + 1 + j] == b[j];
    }
  }

  lemma SortedJoin(a: seq<PriceLevel>, n: PriceLevel, b: seq<PriceLevel>)
    requires Sorted(a) && AllBelow(a, n.price)
    requires Sorted(b) && AllAbove(b, n.price)
    ensures Sorted(a + [n] + b)
  {
    var s := a + [n] + b;
    forall i, j | 0 <= i < j < |s| ensures s[i].price < s[j].price {
      assert s[i] == if i < |a| then a[i] else if i == |a| then n else b[i - |a| - 1];
      assert s[j] == if j < |a| then a[j] else if j == |a| then n else b[j - |a| - 1];
    }
  }

  lemma {:induction false} PricesBelow(t: Tree, p: int)
    requires AllBelow(InOrder(t), p)
    ensures forall n :: n in Nodes(t) ==> n.price < p
  {
    match t
    case Leaf =>
    case Node(l, n, r) =>
      var s, k := InOrder(t), |InOrder(l)|;
      assert s[k] == n;
      assert s[..k] == InOrder(l) && s[k + 1..] == InOrder(r);
      PricesBelow(l, p);
      PricesBelow(r, p);
  }

  lemma {:induction false} PricesAbove(t: Tree, p: int)
    requires AllAbove(InOrder(t), p)
    ensures forall n :: n in Nodes(t) ==> p < n.price
  {
    match t
    case Leaf =>
    case Node(l, n, r) =>
      var s, k := InOrder(t), |InOrder(l)|;
      assert s[k] == n;
      assert s[..k] == InOrder(l) && s[k + 1..] == InOrder(r);
      PricesAbove(l, p);
      PricesAbove(r, p);
  }

  // In a tree ordered by price no node can occur twice.
  lemma {:induction false} SortedDistinct(t: Tree)
    requires Sorted(InOrder(t))
    ensures Distinct(t)
  {
    match t
    case Leaf =>
    case Node(l, n, r) =>
      SortedTake(InOrder(l), n, InOrder(r));
      SortedDistinct(l);
      SortedDistinct(r);
      PricesBelow(l, n.price);
      PricesAbove(r, n.price);
  }
}
