// One side of a limit order book: an AVL tree of price levels, a map from price
// to level, and a cached pointer to the best level.
module BookIndex {
  import opened MarketData
  import opened Levels
  import opened LevelTree
  import opened AvlShape
  import opened PriceLevelTree

  type LevelMap = map<i64, PriceLevel>

  // The map and the tree hold the same levels.
  ghost predicate Indexed(t: Tree, levels: LevelMap) {
    (forall p :: p in levels ==> levels[p] in Nodes(t) && levels[p].price == p) &&
    (forall n :: n in Nodes(t) ==> n.price in levels && levels[n.price] == n)
  }

  // The highest bid, the lowest ask.
  function BestOf(t: Tree, side: Side): PriceLevel? {
    if side == Buy then Last(InOrder(t)) else First(InOrder(t))
  }

  ghost predicate ShapeOk(t: Tree, levels: LevelMap) {
    Balanced(t) && Sorted(InOrder(t)) && Distinct(t) && Indexed(t, levels)
  }

  ghost predicate SideOk(root: PriceLevel?, best: PriceLevel?, levels: LevelMap, t: Tree, side: Side)
    reads Nodes(t)`parent, Nodes(t)`left, Nodes(t)`right, Nodes(t)`height
  {
    ShapeOk(t, levels) && root == Root(t) && best == BestOf(t, side) && TreeIn(Snap(Nodes(t)), null, t)
  }

  // ---------- A new level ----------

  predicate Better(side: Side, p: i64, q: i64) {
    if side == Buy then p > q else p < q
  }

  lemma BestInserted(s: seq<PriceLevel>, n: PriceLevel, s': seq<PriceLevel>)
    requires InsertedAt(s, n, s')
    ensures Last(s') == if s == [] || n.price > Last(s).price then n else Last(s)
    ensures First(s') == if s == [] || n.price < First(s).price then n else First(s)
  {
    var k :| 0 <= k <= |s| && s' == s[..k] + [n] + s[k..] && AllBelow(s[..k], n.price) && AllAbove(s[k..], n.price);
    if k < |s| {
      assert s[k..][|s| - k - 1] == s[|s| - 1];
    } else {
      assert s[..k] == s;
    }
    if k > 0 {
      assert s[..k][0] == s[0];
    } else {
      assert s[k..] == s;
    }
  }

  lemma FreshPrice(t: Tree, levels: LevelMap, p: i64)
    requires Indexed(t, levels) && p !in levels
    ensures Fresh(InOrder(t), p)
  {
    forall k | 0 <= k < |InOrder(t)| ensures InOrder(t)[k].price != p {
      NodeAt(t, k);
    }
  }

  lemma LevelInserted(t: Tree, levels: LevelMap, n: PriceLevel, side: Side)
    requires ShapeOk(t, levels) && n.price !in levels
    ensures n !in Nodes(t) && Nodes(Inserted(t, n)) == Nodes(t) + {n}
    ensures ShapeOk(Inserted(t, n), levels[n.price := n])
    ensures var best := BestOf(t, side);
      BestOf(Inserted(t, n), side) == if best == null || Better(side, n.price, best.price) then n else best
  {
    hide Balanced, Sorted, Distinct, Inserted;
    FreshPrice(t, levels, n.price);
    InsertedCorrect(t, n);
    InsertedContents(t, n);
    SortedDistinct(Inserted(t, n));
    BestInserted(InOrder(t), n, InOrder(Inserted(t, n)));
  }

  // ---------- A level gone ----------

  lemma BestRemoved(s: seq<PriceLevel>, n: PriceLevel, s': seq<PriceLevel>)
    requires RemovedFrom(s, n, s')
    ensures n != Last(s) ==> Last(s') == Last(s)
    ensures n != First(s) ==> First(s') == First(s)
  {
  }

  lemma LevelRemoved(t: Tree, levels: LevelMap, n: PriceLevel, side: Side, c: Ctx, l: Tree, r: Tree)
    requires ShapeOk(t, levels) && t == Plug(c, Node(l, n, r))
    ensures n.price in levels && levels[n.price] == n
    ensures Nodes(Removed(c, l, r)) == Nodes(t) - {n}
    ensures ShapeOk(Removed(c, l, r), levels - {n.price})
    ensures n != BestOf(t, side) ==> BestOf(Removed(c, l, r), side) == BestOf(t, side)
  {
    hide Balanced, Sorted, Distinct, Removed, RemovedFrom;
    PlugNodes(c, Node(l, n, r));
    RemovedCorrect(c, l, n, r);
    SortedDistinct(Removed(c, l, r));
    RemovedNodes(c, l, n, r);
    BestRemoved(InOrder(t), n, InOrder(Removed(c, l, r)));
  }

  lemma RemovedNodes(c: Ctx, l: Tree, n: PriceLevel, r: Tree)
    requires Distinct(Plug(c, Node(l, n, r)))
    ensures Nodes(Removed(c, l, r)) == Nodes(Plug(c, Node(l, n, r))) - {n}
  {
    PlugDistinct(c, Node(l, n, r));
    PlugNodes(c, Node(l, n, r));
    if l.Node? && r.Node? {
      SwapApart(c, l, n, r);
      RebalanceContents(SwapCtx(c, l, r), MinRight(r));
      PlugNodes(SwapCtx(c, l, r), MinRight(r));
      SpliceApart(SwapCtx(c, l, r), Leaf, n, MinRight(r));
    } else {
      SpliceApart(c, l, n, r);
      RebalanceContents(c, Only(l, r));
      PlugNodes(c, Only(l, r));
    }
  }

  // ---------- The operations ----------

  lemma SnapSubset(s: set<PriceLevel>, s': set<PriceLevel>, t: Tree)
    requires Nodes(t) <= s && Nodes(t) <= s' && TreeIn(Snap(s), null, t)
    ensures TreeIn(Snap(s'), null, t)
  {
    TreeKept(Snap(s), Snap(s'), null, t);
  }

  // Puts a new level into the tree, the map and, if it is better, the best pointer.
  method AddLevel(root: PriceLevel?, best: PriceLevel?, levels: LevelMap, ghost t: Tree, side: Side, lv: PriceLevel)
    returns (root': PriceLevel?, best': PriceLevel?, levels': LevelMap, ghost t': Tree)
    requires SideOk(root, best, levels, t, side) && lv.price !in levels
    modifies (Nodes(t) + {lv})`parent, (Nodes(t) + {lv})`left, (Nodes(t) + {lv})`right, (Nodes(t) + {lv})`height
    ensures SideOk(root', best', levels', t', side)
    ensures levels' == levels[lv.price := lv] && Nodes(t') == Nodes(t) + {lv} && lv !in Nodes(t)
  {
    hide Balanced, Sorted, Indexed, TreeIn, Inserted, Nodes, InOrder;
    LevelInserted(t, levels, lv, side);
    SnapSubset(Nodes(t), Nodes(t) + {lv}, t);
    t' := Inserted(t, lv);
    root' := AvlInsert(root, lv, Nodes(t) + {lv}, t);
    best' := if best == null || Better(side, lv.price, best.price) then lv else best;
    levels' := levels[lv.price := lv];
  }

  method FindBest(root: PriceLevel?, side: Side, ghost s: set<PriceLevel>, ghost t: Tree) returns (best: PriceLevel?)
    requires root == Root(t) && Nodes(t) <= s && TreeIn(Snap(s), null, t)
    ensures best == BestOf(t, side) && TreeIn(Snap(s), null, t)
  {
    if side == Buy {
      best := TreeMax(root, s, null, t);
    } else {
      best := TreeMin(root, s, null, t);
    }
  }

  // Takes a level out of the tree and the map; if it was the best one, the best
  // pointer is found again.
  method RemoveLevel(root: PriceLevel?, best: PriceLevel?, levels: LevelMap, ghost t: Tree, side: Side, lv: PriceLevel)
    returns (root': PriceLevel?, best': PriceLevel?, levels': LevelMap, ghost t': Tree)
    requires SideOk(root, best, levels, t, side) && lv in Nodes(t)
    modifies Nodes(t)`parent, Nodes(t)`left, Nodes(t)`right, Nodes(t)`height
    ensures SideOk(root', best', levels', t', side)
    ensures levels' == levels - {lv.price} && Nodes(t') == Nodes(t) - {lv} && lv.price in levels
        && levels[lv.price] == lv
  {
    hide Balanced, Sorted, Indexed, TreeIn, Removed, Nodes, InOrder, Plug;
    ghost var c, l, r := Locate(t, Top, lv);
    assert t == Plug(c, Node(l, lv, r)) by { PlugTop(t); }
    LevelRemoved(t, levels, lv, side, c, l, r);
    t' := Removed(c, l, r);
    root' := AvlRemove(root, lv, Nodes(t), c, l, r);
    best' := best;
    if lv == best {
      best' := FindBest(root', side, Nodes(t), t');
    }
    SnapSubset(Nodes(t), Nodes(t'), t');
    levels' := levels - {lv.price};
  }

  lemma PlugTop(t: Tree)
    ensures Plug(Top, t) == t
  {
  }
}
