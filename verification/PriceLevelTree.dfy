// The pointer algorithms on parent-linked AVL trees of price levels.  Each method
// takes, as ghost arguments, the shape it works on, and is proved to leave the
// heap in the shape that AvlShape computes.
//
// The tree fields of a set of nodes, read out of the heap, form a value (Links).
// What it means for links to have a shape is said about that value.
module PriceLevelTree {
  import opened MarketData
  import opened Levels
  import opened LevelTree
  import opened AvlShape

  datatype Link = Link(parent: PriceLevel?, left: PriceLevel?, right: PriceLevel?, height: int)

  type Links = map<PriceLevel, Link>

  ghost function LinkOf(n: PriceLevel): Link
    reads n`parent, n`left, n`right, n`height
  {
    Link(n.parent, n.left, n.right, n.height)
  }

  ghost function Snap(s: set<PriceLevel>): (h: Links)
    reads s`parent, s`left, s`right, s`height
    ensures h.Keys == s
    ensures forall n :: n in s ==> h[n] == LinkOf(n)
  {
    map n | n in s :: LinkOf(n)
  }

  // ---------- Links with a shape ----------

  ghost function Root(t: Tree): PriceLevel? {
    if t.Leaf? then null else t.lv
  }

  // A tree of shape t hangs below par: child and parent links agree and every
  // stored height is exact.
  ghost predicate TreeIn(h: Links, par: PriceLevel?, t: Tree)
    decreases t
  {
    match t
    case Leaf => true
    case Node(l, n, r) =>
      n in h && h[n] == Link(par, Root(l), Root(r), Height(t)) && TreeIn(h, n, l) && TreeIn(h, n, r)
  }

  // The same, except that the height stored at the root may be out of date.
  ghost predicate OpenIn(h: Links, par: PriceLevel?, t: Tree) {
    t.Node? && t.lv in h && h[t.lv] == Link(par, Root(t.left), Root(t.right), h[t.lv].height) &&
    TreeIn(h, t.lv, t.left) && TreeIn(h, t.lv, t.right)
  }

  // The node just above the hole of c.
  ghost function Par(c: Ctx): PriceLevel? {
    match c
    case Top => null
    case InLeft(_, n, _) => n
    case InRight(_, n, _) => n
  }

  // The frames of c are linked, with `hole` in their hole.  Nothing is said of
  // the heights stored on the way up.
  ghost predicate CtxIn(h: Links, hole: PriceLevel?, c: Ctx)
    decreases c
  {
    match c
    case Top => true
    case InLeft(up, n, r) =>
      n in h && h[n] == Link(Par(up), hole, Root(r), h[n].height) && TreeIn(h, n, r) && CtxIn(h, n, up)
    case InRight(l, n, up) =>
      n in h && h[n] == Link(Par(up), Root(l), hole, h[n].height) && TreeIn(h, n, l) && CtxIn(h, n, up)
  }

  ghost predicate Apart(c: Ctx, t: Tree) {
    CtxDistinct(c) && Distinct(t) && CtxNodes(c) !! Nodes(t)
  }

  // ---------- What does not change ----------

  ghost predicate SameOn(h: Links, h': Links, s: set<PriceLevel>) {
    forall n :: n in s && n in h ==> n in h' && h'[n] == h[n]
  }

  lemma {:induction false} TreeKept(h: Links, h': Links, par: PriceLevel?, t: Tree)
    requires TreeIn(h, par, t) && SameOn(h, h', Nodes(t))
    ensures TreeIn(h', par, t)
    decreases t
  {
    match t
    case Leaf =>
    case Node(l, n, r) =>
      TreeKept(h, h', n, l);
      TreeKept(h, h', n, r);
  }

  lemma {:induction false} CtxKept(h: Links, h': Links, hole: PriceLevel?, c: Ctx)
    requires CtxIn(h, hole, c) && SameOn(h, h', CtxNodes(c))
    ensures CtxIn(h', hole, c)
    decreases c
  {
    match c
    case Top =>
    case InLeft(up, n, r) =>
      TreeKept(h, h', n, r);
      CtxKept(h, h', n, up);
    case InRight(l, n, up) =>
      TreeKept(h, h', n, l);
      CtxKept(h, h', n, up);
  }

  // A tree of which only the root's parent link changed hangs below that parent.
  lemma TreeMoved(h: Links, h': Links, oldPar: PriceLevel?, par: PriceLevel?, t: Tree)
    requires TreeIn(h, oldPar, t) && Distinct(t)
    requires t.Node? ==> t.lv in h' && h'[t.lv] == h[t.lv].(parent := par)
    requires SameOn(h, h', Nodes(t) - {Root(t)})
    ensures TreeIn(h', par, t)
  {
    if t.Node? {
      TreeKept(h, h', t.lv, t.left);
      TreeKept(h, h', t.lv, t.right);
    }
  }

  // ---------- Heights ----------

  function HeightOf(n: PriceLevel?): int
    reads n
  {
    if n == null then 0 else n.height
  }

  function BalanceOf(n: PriceLevel): int
    reads n, n.left, n.right
  {
    HeightOf(n.left) - HeightOf(n.right)
  }

  method UpdateHeight(n: PriceLevel)
    modifies n`height
    ensures n.height == 1 + Max(old(HeightOf(n.left)), old(HeightOf(n.right)))
  {
    n.height := 1 + Max(HeightOf(n.left), HeightOf(n.right));
  }

  // ---------- Rotations ----------

  // The parts that a right rotation reassembles share no node.
  lemma LeftSplit(t: Tree)
    requires t.Node? && t.left.Node? && Distinct(t)
    ensures var n, l, a, b, c := t.lv, t.left.lv, t.left.left, t.left.right, t.right;
      n != l && n !in Nodes(a) + Nodes(b) + Nodes(c) && l !in Nodes(a) + Nodes(b) + Nodes(c) &&
      Nodes(a) !! Nodes(b) && Nodes(a) !! Nodes(c) && Nodes(b) !! Nodes(c) &&
      Distinct(a) && Distinct(b) && Distinct(c) &&
      Nodes(t) == Nodes(a) + Nodes(b) + Nodes(c) + {n, l}
  {
    assert Distinct(t.left);
    assert Nodes(t.left) == Nodes(t.left.left) + {t.left.lv} + Nodes(t.left.right);
  }

  // The links that a right rotation leaves behind.
  lemma RotateRightLinks(h: Links, h': Links, par: PriceLevel?, t: Tree)
    requires OpenIn(h, par, t) && t.left.Node? && Distinct(t)
    requires Nodes(t) <= h.Keys && Nodes(t) <= h'.Keys
    requires h'[t.left.lv] == Link(par, Root(t.left.left), t.lv, Height(RotateRight(t)))
    requires h'[t.lv] == Link(t.left.lv, Root(t.left.right), Root(t.right), Height(RotateRight(t).right))
    requires t.left.right.Node? ==>
      t.left.right.lv in h && t.left.right.lv in h' && h'[t.left.right.lv] == h[t.left.right.lv].(parent := t.lv)
    requires SameOn(h, h', Nodes(t) - {t.lv, t.left.lv, Root(t.left.right)})
    ensures TreeIn(h', par, RotateRight(t))
  {
    var n, l, a, b, c := t.lv, t.left.lv, t.left.left, t.left.right, t.right;
    LeftSplit(t);
    TreeKept(h, h', l, a);
    TreeKept(h, h', n, c);
    TreeMoved(h, h', l, n, b);
  }

  // The fields a right rotation writes.
  method RotateRightFields(n: PriceLevel) returns (l: PriceLevel)
    requires n.left != null && n.left != n && n.left.right != n && n.left.right != n.left
    requires n.right != n && n.right != n.left && n.left.left != n && n.left.left != n.left
    modifies n`parent, n`left, n`height, n.left`parent, n.left`right, n.left`height
    modifies (if n.left == null || n.left.right == null then {} else {n.left.right})`parent
    ensures l == old(n.left)
    ensures n.left == old(n.left.right) && n.parent == l
    ensures l.right == n && l.parent == old(n.parent)
    ensures old(n.left.right) != null ==> old(n.left.right).parent == n
    ensures n.height == 1 + Max(old(HeightOf(n.left.right)), old(HeightOf(n.right)))
    ensures l.height == 1 + Max(old(HeightOf(n.left.left)), n.height)
  {
    l := n.left;
    n.left := l.right;
    if l.right != null {
      l.right.parent := n;
    }
    l.right := n;
    l.parent := n.parent;
    n.parent := l;
    UpdateHeight(n);
    UpdateHeight(l);
  }

  ghost predicate RootIn(h: Links, t: Tree) {
    t.Node? ==> t.lv in h && h[t.lv].height == Height(t)
  }

  // What a right rotation may rely on: its nodes are different objects and the
  // stored heights of the parts are exact.
  lemma LeftFields(h: Links, par: PriceLevel?, t: Tree)
    requires OpenIn(h, par, t) && t.left.Node? && Distinct(t)
    ensures var n, l, a, b, c := t.lv, t.left.lv, t.left.left, t.left.right, t.right;
      n != l && {n, l} !! {Root(a), Root(b), Root(c)} && Nodes(t) >= {n, l} &&
      (b.Node? ==> b.lv in Nodes(t) && b.lv !in Nodes(a) + Nodes(c)) &&
      RootIn(h, a) && RootIn(h, b) && RootIn(h, c) &&
      h[n] == Link(par, l, Root(c), h[n].height) && l in h && h[l] == Link(n, Root(a), Root(b), Height(t.left)) &&
      Height(RotateRight(t).right) == 1 + Max(Height(b), Height(c)) &&
      Height(RotateRight(t)) == 1 + Max(Height(a), Height(RotateRight(t).right)) &&
      (a.Leaf? ==> Height(a) == 0) && (b.Leaf? ==> Height(b) == 0) && (c.Leaf? ==> Height(c) == 0)
  {
    LeftSplit(t);
    var a, b := t.left.left, t.left.right;
    assert TreeIn(h, t.left.lv, a) && TreeIn(h, t.left.lv, b);
  }

  method RotateRightAt(n: PriceLevel, ghost s: set<PriceLevel>, ghost par: PriceLevel?, ghost t: Tree)
      returns (l: PriceLevel)
    requires t.Node? && t.lv == n && t.left.Node? && Distinct(t) && Nodes(t) <= s
    requires OpenIn(Snap(s), par, t)
    modifies Nodes(t)`parent, Nodes(t)`left, Nodes(t)`right, Nodes(t)`height
    ensures l == RotateRight(t).lv && TreeIn(Snap(s), par, RotateRight(t))
  {
    hide Nodes, Distinct, TreeIn, Height;
    ghost var h := Snap(s);
    LeftFields(h, par, t);
    l := RotateRightFields(n);
    RotateRightLinks(h, Snap(s), par, t);
  }

  // The parts that a left rotation reassembles share no node.
  lemma RightSplit(t: Tree)
    requires t.Node? && t.right.Node? && Distinct(t)
    ensures var n, r, a, b, c := t.lv, t.right.lv, t.right.right, t.right.left, t.left;
      n != r && n !in Nodes(a) + Nodes(b) + Nodes(c) && r !in Nodes(a) + Nodes(b) + Nodes(c) &&
      Nodes(a) !! Nodes(b) && Nodes(a) !! Nodes(c) && Nodes(b) !! Nodes(c) &&
      Distinct(a) && Distinct(b) && Distinct(c) &&
      Nodes(t) == Nodes(a) + Nodes(b) + Nodes(c) + {n, r}
  {
    assert Distinct(t.right);
    assert Nodes(t.right) == Nodes(t.right.right) + {t.right.lv} + Nodes(t.right.left);
  }

  // The links that a left rotation leaves behind.
  lemma RotateLeftLinks(h: Links, h': Links, par: PriceLevel?, t: Tree)
    requires OpenIn(h, par, t) && t.right.Node? && Distinct(t)
    requires Nodes(t) <= h.Keys && Nodes(t) <= h'.Keys
    requires h'[t.right.lv] == Link(par, t.lv, Root(t.right.right), Height(RotateLeft(t)))
    requires h'[t.lv] == Link(t.right.lv, Root(t.left), Root(t.right.left), Height(RotateLeft(t).left))
    requires t.right.left.Node? ==>
      t.right.left.lv in h && t.right.left.lv in h' && h'[t.right.left.lv] == h[t.right.left.lv].(parent := t.lv)
    requires SameOn(h, h', Nodes(t) - {t.lv, t.right.lv, Root(t.right.left)})
    ensures TreeIn(h', par, RotateLeft(t))
  {
    var n, r, a, b, c := t.lv, t.right.lv, t.right.right, t.right.left, t.left;
    RightSplit(t);
    TreeKept(h, h', r, a);
    TreeKept(h, h', n, c);
    TreeMoved(h, h', r, n, b);
  }

  // The fields a left rotation writes.
  method RotateLeftFields(n: PriceLevel) returns (r: PriceLevel)
    requires n.right != null && n.right != n && n.right.left != n && n.right.left != n.right
    requires n.left != n && n.left != n.right && n.right.right != n && n.right.right != n.right
    modifies n`parent, n`right, n`height, n.right`parent, n.right`left, n.right`height
    modifies (if n.right == null || n.right.left == null then {} else {n.right.left})`parent
    ensures r == old(n.right)
    ensures n.right == old(n.right.left) && n.parent == r
    ensures r.left == n && r.parent == old(n.parent)
    ensures old(n.right.left) != null ==> old(n.right.left).parent == n
    ensures n.height == 1 + Max(old(HeightOf(n.right.left)), old(HeightOf(n.left)))
    ensures r.height == 1 + Max(old(HeightOf(n.right.right)), n.height)
  {
    r := n.right;
    n.right := r.left;
    if r.left != null {
      r.left.parent := n;
    }
    r.left := n;
    r.parent := n.parent;
    n.parent := r;
    UpdateHeight(n);
    UpdateHeight(r);
  }

  // What a left rotation may rely on: its nodes are different objects and the
  // stored heights of the parts are exact.
  lemma RightFields(h: Links, par: PriceLevel?, t: Tree)
    requires OpenIn(h, par, t) && t.right.Node? && Distinct(t)
    ensures var n, r, a, b, c := t.lv, t.right.lv, t.right.right, t.right.left, t.left;
      n != r && {n, r} !! {Root(a), Root(b), Root(c)} && Nodes(t) >= {n, r} &&
      (b.Node? ==> b.lv in Nodes(t) && b.lv !in Nodes(a) + Nodes(c)) &&
      RootIn(h, a) && RootIn(h, b) && RootIn(h, c) &&
      h[n] == Link(par, Root(c), r, h[n].height) && r in h && h[r] == Link(n, Root(b), Root(a), Height(t.right)) &&
      Height(RotateLeft(t).left) == 1 + Max(Height(c), Height(b)) &&
      Height(RotateLeft(t)) == 1 + Max(Height(RotateLeft(t).left), Height(a)) &&
      (a.Leaf? ==> Height(a) == 0) && (b.Leaf? ==> Height(b) == 0) && (c.Leaf? ==> Height(c) == 0)
  {
    RightSplit(t);
    var a, b := t.right.right, t.right.left;
    assert TreeIn(h, t.right.lv, a) && TreeIn(h, t.right.lv, b);
  }

  method RotateLeftAt(n: PriceLevel, ghost s: set<PriceLevel>, ghost par: PriceLevel?, ghost t: Tree)
      returns (r: PriceLevel)
    requires t.Node? && t.lv == n && t.right.Node? && Distinct(t) && Nodes(t) <= s
    requires OpenIn(Snap(s), par, t)
    modifies Nodes(t)`parent, Nodes(t)`right, Nodes(t)`left, Nodes(t)`height
    ensures r == RotateLeft(t).lv && TreeIn(Snap(s), par, RotateLeft(t))
  {
    hide Nodes, Distinct, TreeIn, Height;
    ghost var h := Snap(s);
    RightFields(h, par, t);
    r := RotateLeftFields(n);
    RotateLeftLinks(h, Snap(s), par, t);
  }

  // ---------- Repairing one node ----------

  // The stored heights give the balance factor of the shape.
  lemma BalanceRead(n: PriceLevel, s: set<PriceLevel>, par: PriceLevel?, t: Tree)
    requires t.Node? && t.lv == n && Nodes(t) <= s && TreeIn(Snap(s), par, t)
    ensures BalanceOf(n) == BalanceFactor(t)
    ensures n.left == Root(t.left) && n.right == Root(t.right)
  {
    var h := Snap(s);
    assert RootIn(h, t.left) && RootIn(h, t.right);
    assert LinkOf(n) == h[n];
    assert t.left.Node? ==> h[t.left.lv] == LinkOf(t.left.lv);
    assert t.right.Node? ==> h[t.right.lv] == LinkOf(t.right.lv);
  }

  method Refresh(n: PriceLevel, ghost s: set<PriceLevel>, ghost par: PriceLevel?, ghost t: Tree)
    requires t.Node? && t.lv == n && Distinct(t) && Nodes(t) <= s
    requires OpenIn(Snap(s), par, t)
    modifies n`height
    ensures TreeIn(Snap(s), par, t)
  {
    ghost var h := Snap(s);
    UpdateHeight(n);
    TreeKept(h, Snap(s), n, t.left);
    TreeKept(h, Snap(s), n, t.right);
  }

  method FixLeftHeavy(n: PriceLevel, ghost s: set<PriceLevel>, ghost par: PriceLevel?, ghost t: Tree)
      returns (r: PriceLevel)
    requires t.Node? && t.lv == n && Distinct(t) && Nodes(t) <= s
    requires TreeIn(Snap(s), par, t) && BalanceFactor(t) > 1
    modifies Nodes(t)`parent, Nodes(t)`left, Nodes(t)`right, Nodes(t)`height
    ensures FixOne(t).Node? && r == FixOne(t).lv && TreeIn(Snap(s), par, FixOne(t))
  {
    BalanceRead(n, s, par, t);
    BalanceRead(n.left, s, n, t.left);
    if BalanceOf(n.left) < 0 {
      r := FixLeftRight(n, s, par, t);
    } else {
      r := RotateRightAt(n, s, par, t);
    }
  }

  // The double rotation: first the left child to the left, then n to the right.
  method FixLeftRight(n: PriceLevel, ghost s: set<PriceLevel>, ghost par: PriceLevel?, ghost t: Tree)
      returns (r: PriceLevel)
    requires t.Node? && t.lv == n && Distinct(t) && Nodes(t) <= s
    requires TreeIn(Snap(s), par, t) && t.left.Node? && t.left.right.Node?
    modifies Nodes(t)`parent, Nodes(t)`left, Nodes(t)`right, Nodes(t)`height
    ensures r == RotateRight(Node(RotateLeft(t.left), n, t.right)).lv
    ensures TreeIn(Snap(s), par, RotateRight(Node(RotateLeft(t.left), n, t.right)))
  {
    hide Height;
    ghost var h, t' := Snap(s), Node(RotateLeft(t.left), n, t.right);
    RotateLeftContents(t.left);
    assert LinkOf(n) == h[n];
    var l := RotateLeftAt(n.left, s, n, t.left);
    ghost var h' := Snap(s);
    n.left := l;
    n.left.parent := n;
    assert SameOn(h', Snap(s), s - {n});
    TreeKept(h', Snap(s), n, RotateLeft(t.left));
    TreeKept(h, Snap(s), n, t.right);
    r := RotateRightAt(n, s, par, t');
  }

  method FixRightHeavy(n: PriceLevel, ghost s: set<PriceLevel>, ghost par: PriceLevel?, ghost t: Tree)
      returns (r: PriceLevel)
    requires t.Node? && t.lv == n && Distinct(t) && Nodes(t) <= s
    requires TreeIn(Snap(s), par, t) && BalanceFactor(t) < -1
    modifies Nodes(t)`parent, Nodes(t)`right, Nodes(t)`left, Nodes(t)`height
    ensures FixOne(t).Node? && r == FixOne(t).lv && TreeIn(Snap(s), par, FixOne(t))
  {
    BalanceRead(n, s, par, t);
    BalanceRead(n.right, s, n, t.right);
    if BalanceOf(n.right) > 0 {
      r := FixRightLeft(n, s, par, t);
    } else {
      r := RotateLeftAt(n, s, par, t);
    }
  }

  // The double rotation: first the right child to the right, then n to the left.
  method FixRightLeft(n: PriceLevel, ghost s: set<PriceLevel>, ghost par: PriceLevel?, ghost t: Tree)
      returns (r: PriceLevel)
    requires t.Node? && t.lv == n && Distinct(t) && Nodes(t) <= s
    requires TreeIn(Snap(s), par, t) && t.right.Node? && t.right.left.Node?
    modifies Nodes(t)`parent, Nodes(t)`right, Nodes(t)`left, Nodes(t)`height
    ensures r == RotateLeft(Node(t.left, n, RotateRight(t.right))).lv
    ensures TreeIn(Snap(s), par, RotateLeft(Node(t.left, n, RotateRight(t.right))))
  {
    hide Height;
    ghost var h, t' := Snap(s), Node(t.left, n, RotateRight(t.right));
    RotateRightContents(t.right);
    assert LinkOf(n) == h[n];
    var c := RotateRightAt(n.right, s, n, t.right);
    ghost var h' := Snap(s);
    n.right := c;
    n.right.parent := n;
    assert SameOn(h', Snap(s), s - {n});
    TreeKept(h', Snap(s), n, RotateRight(t.right));
    TreeKept(h, Snap(s), n, t.left);
    r := RotateLeftAt(n, s, par, t');
  }

  // Restores the AVL condition at n, whose children are sound but whose own
  // stored height may be out of date; returns the node now in n's place.
  method FixOneAt(n: PriceLevel, ghost s: set<PriceLevel>, ghost par: PriceLevel?, ghost t: Tree)
      returns (r: PriceLevel)
    requires t.Node? && t.lv == n && Distinct(t) && Nodes(t) <= s
    requires OpenIn(Snap(s), par, t)
    modifies Nodes(t)`parent, Nodes(t)`left, Nodes(t)`right, Nodes(t)`height
    ensures FixOne(t).Node? && r == FixOne(t).lv && TreeIn(Snap(s), par, FixOne(t))
  {
    Refresh(n, s, par, t);
    BalanceRead(n, s, par, t);
    var bf := BalanceOf(n);
    if bf > 1 {
      r := FixLeftHeavy(n, s, par, t);
    } else if bf < -1 {
      r := FixRightHeavy(n, s, par, t);
    } else {
      r := n;
    }
  }

  // ---------- The walk to the root ----------

  // Putting another node into the hole of c writes one child field of one node.
  lemma CtxRelinked(h: Links, h': Links, hole: PriceLevel?, hole': PriceLevel?, c: Ctx)
    requires CtxIn(h, hole, c) && CtxDistinct(c) && SameOn(h, h', CtxNodes(c) - {Par(c)})
    requires c.InLeft? ==> c.lv in h' && h'[c.lv] == h[c.lv].(left := hole')
    requires c.InRight? ==> c.lv in h' && h'[c.lv] == h[c.lv].(right := hole')
    ensures CtxIn(h', hole', c)
  {
    match c
    case Top =>
    case InLeft(up, n, r) =>
      TreeKept(h, h', n, r);
      CtxKept(h, h', n, up);
    case InRight(l, n, up) =>
      TreeKept(h, h', n, l);
      CtxKept(h, h', n, up);
  }

  // Which child of its parent a node is tells the frame it stands in.
  lemma FrameSide(h: Links, c: Ctx, t: Tree)
    requires Apart(c, t) && t.Node? && CtxIn(h, Root(t), c) && !c.Top?
    ensures c.lv in h && (h[c.lv].left == t.lv <==> c.InLeft?) && (h[c.lv].right == t.lv <==> c.InRight?)
    ensures h[c.lv].parent == Par(Pop(c))
  {
    if c.InRight? {
      assert h[c.lv].left == Root(c.left);
    } else {
      assert h[c.lv].right == Root(c.right);
    }
  }

  // One step of the walk: repairs cur and links the node now in its place to
  // the parent.
  method RepairAndLink(cur: PriceLevel, ghost s: set<PriceLevel>, ghost c: Ctx, ghost t: Tree)
    returns (nr: PriceLevel, par: PriceLevel?)
    requires t.Node? && t.lv == cur && Apart(c, t) && CtxNodes(c) + Nodes(t) <= s
    requires OpenIn(Snap(s), Par(c), t) && CtxIn(Snap(s), cur, c)
    modifies (CtxNodes(c) + Nodes(t))`parent, (CtxNodes(c) + Nodes(t))`left, (CtxNodes(c) + Nodes(t))`right,
        (CtxNodes(c) + Nodes(t))`height
    ensures par == Par(c) && FixOne(t).Node? && nr == FixOne(t).lv
    ensures TreeIn(Snap(s), par, FixOne(t)) && CtxIn(Snap(s), nr, c)
  {
    hide FixOne, Distinct, CtxDistinct, TreeIn, CtxIn;
    ghost var h := Snap(s);
    par := cur.parent;
    assert LinkOf(cur) == h[cur];
    nr := FixOneAt(cur, s, par, t);
    FixOneContents(t);
    ghost var h' := Snap(s);
    CtxKept(h, h', cur, c);
    if nr != cur {
      Relink(cur, nr, par, s, c, t);
    }
  }

  method Relink(cur: PriceLevel, nr: PriceLevel, par: PriceLevel?, ghost s: set<PriceLevel>, ghost c: Ctx,
      ghost t: Tree)
    requires t.Node? && t.lv == cur && Apart(c, t) && CtxNodes(c) + Nodes(t) <= s && par == Par(c)
    requires CtxIn(Snap(s), cur, c) && FixOne(t).Node? && nr == FixOne(t).lv && TreeIn(Snap(s), par, FixOne(t))
    modifies (if par == null then {} else {par})`left, (if par == null then {} else {par})`right, nr`parent
    ensures TreeIn(Snap(s), par, FixOne(t)) && CtxIn(Snap(s), nr, c)
  {
    ghost var h := Snap(s);
    FixOneContents(t);
    if par != null {
      FrameSide(h, c, t);
      assert LinkOf(par) == h[par];
      if par.left == cur {
        par.left := nr;
      } else {
        par.right := nr;
      }
    }
    nr.parent := par;
    TreeKept(h, Snap(s), par, FixOne(t));
    CtxRelinked(h, Snap(s), cur, nr, c);
  }

  // Repairs every node from start up to the root.  The tree t hangs in the hole
  // of c, just below start.
  method RebalanceUp(start: PriceLevel?, oldRoot: PriceLevel?, ghost s: set<PriceLevel>, ghost c: Ctx, ghost t: Tree)
    returns (newRoot: PriceLevel?)
    requires Apart(c, t) && CtxNodes(c) + Nodes(t) <= s && start == Par(c)
    requires TreeIn(Snap(s), start, t) && CtxIn(Snap(s), Root(t), c)
    requires c.Top? ==> oldRoot == Root(t)
    modifies (CtxNodes(c) + Nodes(t))`parent, (CtxNodes(c) + Nodes(t))`left, (CtxNodes(c) + Nodes(t))`right,
        (CtxNodes(c) + Nodes(t))`height
    ensures newRoot == Root(Rebalance(c, t)) && TreeIn(Snap(s), null, Rebalance(c, t))
  {
    hide FixOne, Distinct, CtxDistinct, TreeIn, CtxIn, Nodes, CtxNodes, OpenIn;
    newRoot := oldRoot;
    var cur := start;
    ghost var cc, tt := c, t;
    while cur != null
      invariant Apart(cc, tt) && CtxNodes(cc) + Nodes(tt) == CtxNodes(c) + Nodes(t) && cur == Par(cc)
      invariant TreeIn(Snap(s), cur, tt) && CtxIn(Snap(s), Root(tt), cc)
      invariant Rebalance(cc, tt) == Rebalance(c, t)
      invariant cc.Top? ==> newRoot == Root(tt)
      decreases cc
    {
      ghost var up, u := Pop(cc), Open(cc, tt);
      FrameOpens(Snap(s), cc, tt);
      var nr, par := RepairAndLink(cur, s, up, u);
      FixOneContents(u);
      if par == null {
        newRoot := nr;
      }
      cur := par;
      cc, tt := up, FixOne(u);
    }
  }

  // One frame of a zipper joined with the tree below it.
  ghost function Open(c: Ctx, t: Tree): Tree
    requires !c.Top?
  {
    match c
    case InLeft(up, n, r) => Node(t, n, r)
    case InRight(l, n, up) => Node(l, n, t)
  }

  ghost function Pop(c: Ctx): Ctx
    requires !c.Top?
  {
    c.up
  }

  lemma FrameOpens(h: Links, c: Ctx, t: Tree)
    requires !c.Top? && Apart(c, t) && TreeIn(h, Par(c), t) && CtxIn(h, Root(t), c)
    ensures OpenIn(h, Par(Pop(c)), Open(c, t)) && CtxIn(h, Par(c), Pop(c))
    ensures Apart(Pop(c), Open(c, t)) && Open(c, t).lv == Par(c)
    ensures CtxNodes(c) + Nodes(t) == CtxNodes(Pop(c)) + Nodes(Open(c, t))
    ensures Rebalance(c, t) == Rebalance(Pop(c), FixOne(Open(c, t)))
  {
  }

  // ---------- Insertion ----------

  // Stepping down into a child moves one frame onto the zipper.
  lemma StepLeft(h: Links, c: Ctx, t: Tree)
    requires t.Node? && Apart(c, t) && TreeIn(h, Par(c), t) && CtxIn(h, Root(t), c)
    ensures var d := InLeft(c, t.lv, t.right);
      Apart(d, t.left) && TreeIn(h, t.lv, t.left) && CtxIn(h, Root(t.left), d) &&
      CtxNodes(d) + Nodes(t.left) == CtxNodes(c) + Nodes(t)
    ensures t.lv in h && h[t.lv].left == Root(t.left)
  {
  }

  lemma StepRight(h: Links, c: Ctx, t: Tree)
    requires t.Node? && Apart(c, t) && TreeIn(h, Par(c), t) && CtxIn(h, Root(t), c)
    ensures var d := InRight(t.left, t.lv, c);
      Apart(d, t.right) && TreeIn(h, t.lv, t.right) && CtxIn(h, Root(t.right), d) &&
      CtxNodes(d) + Nodes(t.right) == CtxNodes(c) + Nodes(t)
    ensures t.lv in h && h[t.lv].right == Root(t.right)
  {
  }

  // A tree of one node.
  lemma OneNode(h: Links, n: PriceLevel, par: PriceLevel?)
    ensures var one := Node(Leaf, n, Leaf); Nodes(one) == {n} && Distinct(one) && Nodes(Leaf) == {}
    ensures n in h && h[n] == Link(par, null, null, 1) ==> TreeIn(h, par, Node(Leaf, n, Leaf))
    ensures Inserted(Leaf, n) == Node(Leaf, n, Leaf)
  {
  }

  // Hangs a detached node into the empty hole of c, below cur.
  method Attach(cur: PriceLevel, node: PriceLevel, ghost s: set<PriceLevel>, ghost c: Ctx)
    requires !c.Top? && cur == Par(c) && CtxIn(Snap(s), null, c) && CtxDistinct(c)
    requires CtxNodes(c) + {node} <= s && node !in CtxNodes(c)
    requires node.left == null && node.right == null && node.height == 1
    requires c.InLeft? <==> node.price < cur.price
    modifies cur`left, cur`right, node`parent
    ensures CtxIn(Snap(s), node, c) && TreeIn(Snap(s), cur, Node(Leaf, node, Leaf)) && node.parent == cur
  {
    hide CtxIn, CtxDistinct;
    ghost var h := Snap(s);
    assert cur in CtxNodes(c);
    if node.price < cur.price {
      cur.left := node;
    } else {
      cur.right := node;
    }
    node.parent := cur;
    assert LinkOf(node) == Link(cur, null, null, 1);
    CtxRelinked(h, Snap(s), null, node, c);
    OneNode(Snap(s), node, cur);
  }

  // Finds the node below which a price belongs.
  method FindSlot(root: PriceLevel, price: i64, ghost s: set<PriceLevel>, ghost t: Tree)
    returns (cur: PriceLevel, ghost c: Ctx)
    requires root == Root(t) && Distinct(t) && Nodes(t) <= s && TreeIn(Snap(s), null, t)
    ensures c == Descend(t, Top, price) && !c.Top? && cur == Par(c) && cur in CtxNodes(c)
    ensures CtxIn(Snap(s), null, c) && CtxDistinct(c) && CtxNodes(c) == Nodes(t)
    ensures c.InLeft? <==> price < cur.price
  {
    hide CtxIn, TreeIn;
    cur, c := root, Top;
    ghost var tt := t;
    TopApart(Snap(s), t);
    while true
      invariant tt.Node? && cur == tt.lv && Apart(c, tt) && CtxNodes(c) + Nodes(tt) == Nodes(t)
      invariant TreeIn(Snap(s), Par(c), tt) && CtxIn(Snap(s), cur, c)
      invariant Descend(tt, c, price) == Descend(t, Top, price)
      decreases tt
    {
      if price < cur.price {
        StepLeft(Snap(s), c, tt);
        c, tt := InLeft(c, cur, tt.right), tt.left;
        if cur.left == null {
          break;
        }
        cur := cur.left;
      } else {
        StepRight(Snap(s), c, tt);
        c, tt := InRight(tt.left, cur, c), tt.right;
        if cur.right == null {
          break;
        }
        cur := cur.right;
      }
    }
  }

  // Inserts a node as a leaf and rebalances; returns the new root.
  method AvlInsert(root: PriceLevel?, node: PriceLevel, ghost s: set<PriceLevel>, ghost t: Tree)
      returns (newRoot: PriceLevel?)
    requires root == Root(t) && Distinct(t) && node !in Nodes(t) && Nodes(t) + {node} <= s
    requires TreeIn(Snap(s), null, t)
    modifies (Nodes(t) + {node})`parent, (Nodes(t) + {node})`left, (Nodes(t) + {node})`right, (Nodes(t) + {node})`height
    ensures newRoot == Root(Inserted(t, node)) && TreeIn(Snap(s), null, Inserted(t, node))
  {
    hide Distinct, CtxDistinct, TreeIn, CtxIn, Nodes, CtxNodes, Rebalance, Descend;
    ghost var h := Snap(s);
    node.left, node.right, node.parent := null, null, null;
    node.height := 1;
    TreeKept(h, Snap(s), null, t);
    OneNode(Snap(s), node, null);
    if root == null {
      return node;
    }
    var cur;
    ghost var c;
    cur, c := FindSlot(root, node.price, s, t);
    Attach(cur, node, s, c);
    newRoot := RebalanceUp(node.parent, root, s, c, Node(Leaf, node, Leaf));
  }

  lemma TopApart(h: Links, t: Tree)
    requires Distinct(t)
    ensures Apart(Top, t) && CtxNodes(Top) == {} && CtxIn(h, Root(t), Top)
  {
  }

  // ---------- Removal ----------

  lemma {:induction false} PlugSplits(h: Links, c: Ctx, t: Tree)
    requires TreeIn(h, null, Plug(c, t))
    ensures TreeIn(h, Par(c), t) && CtxIn(h, Root(t), c)
    ensures c.Top? ==> Root(Plug(c, t)) == Root(t)
  {
    match c
    case Top =>
    case InLeft(up, n, r) => PlugSplits(h, up, Node(t, n, r));
    case InRight(l, n, up) => PlugSplits(h, up, Node(l, n, t));
  }

  // The node whose left child is the left-most node of t.
  ghost function SpineEnd(t: Tree): PriceLevel
    requires t.Node? && t.left.Node?
  {
    if t.left.left.Leaf? then t.lv else SpineEnd(t.left)
  }

  lemma {:induction false} SpineFacts(t: Tree, c: Ctx)
    requires t.Node? && t.left.Node? && Distinct(t)
    ensures SpineEnd(t) == t.lv <==> t.left.left.Leaf?
    ensures SpineEnd(t) in Nodes(t) && MinNode(t) in Nodes(t) && Nodes(MinRight(t)) <= Nodes(t)
    ensures SpineEnd(t) != MinNode(t) && SpineEnd(t) !in Nodes(MinRight(t)) && MinNode(t) !in Nodes(MinRight(t))
    ensures t.lv != MinNode(t) && t.lv !in Nodes(MinRight(t))
    ensures Distinct(MinRight(t)) && Par(MinPath(t, c)) == SpineEnd(t)
  {
    if t.left.left.Node? {
      SpineFacts(t.left, InLeft(c, t.lv, t.right));
    }
  }

  // The way down the left spine of t, once its upper end hangs in c and its
  // lower end holds x instead of the left-most node.
  lemma {:induction false} SpineRelinked(h: Links, h': Links, par: PriceLevel?, t: Tree, c: Ctx, x: PriceLevel?)
    requires t.Node? && t.left.Node? && Distinct(t) && TreeIn(h, par, t) && CtxIn(h', t.lv, c)
    requires t.lv in h' && h'[t.lv] == Link(Par(c), if t.left.left.Leaf? then x else t.left.lv, Root(t.right),
        h'[t.lv].height)
    requires SpineEnd(t) != t.lv ==>
      SpineEnd(t) in h && SpineEnd(t) in h' && h'[SpineEnd(t)] == h[SpineEnd(t)].(left := x)
    requires SameOn(h, h', Nodes(t) - {t.lv, SpineEnd(t), MinNode(t)} - Nodes(MinRight(t)))
    ensures CtxIn(h', x, MinPath(t, c))
    decreases t
  {
    var d := InLeft(c, t.lv, t.right);
    SpineFacts(t, c);
    if t.left.left.Leaf? {
      TreeKept(h, h', t.lv, t.right);
    } else {
      SpineFacts(t.left, d);
      assert t.left.lv in h && h[t.left.lv] == Link(t.lv, Root(t.left.left), Root(t.left.right), Height(t.left));
      assert t.left.left.left.Node? ==> h'[t.left.lv] == h[t.left.lv];
      TreeKept(h, h', t.lv, t.right);
      SpineRelinked(h, h', t.lv, t.left, d, x);
    }
  }

  // The nodes of t on or beside the way down to its left-most node.
  ghost function Beside(t: Tree): set<PriceLevel>
    requires t.Node?
  {
    Nodes(t) - {MinNode(t)} - Nodes(MinRight(t))
  }

  lemma {:induction false} MinParts(t: Tree)
    requires t.Node? && Distinct(t)
    ensures MinNode(t) in Nodes(t) && Nodes(MinRight(t)) <= Nodes(t)
    ensures MinNode(t) !in Nodes(MinRight(t)) && Distinct(MinRight(t))
    ensures t.left.Node? ==> Beside(t) == Beside(t.left) + {t.lv} + Nodes(t.right)
  {
    if t.left.Node? {
      MinParts(t.left);
    }
  }

  lemma {:induction false} MinPathApart(t: Tree, c: Ctx)
    requires t.Node? && Distinct(t) && CtxDistinct(c) && CtxNodes(c) !! Beside(t)
    ensures CtxDistinct(MinPath(t, c)) && CtxNodes(MinPath(t, c)) == CtxNodes(c) + Beside(t)
  {
    hide Beside;
    MinParts(t);
    if t.left.Node? {
      BesideLeft(t);
      MinPathApart(t.left, InLeft(c, t.lv, t.right));
    } else {
      assert Beside(t) == {} by { LeafBeside(t); }
    }
  }

  lemma LeafBeside(t: Tree)
    requires t.Node? && t.left.Leaf?
    ensures Beside(t) == {}
  {
    assert Nodes(t.left) == {};
    assert Nodes(t) == {t.lv} + Nodes(t.right);
    assert MinNode(t) == t.lv;
    assert MinRight(t) == t.right;
  }

  lemma BesideLeft(t: Tree)
    requires t.Node? && t.left.Node? && Distinct(t)
    ensures Beside(t.left) <= Nodes(t.left)
    ensures t.lv !in Beside(t.left) && Nodes(t.right) !! Beside(t.left)
  {
  }

  // The zipper at which `node`, moved to the place of its successor, stands.
  ghost function SwapCtx(c: Ctx, l: Tree, r: Tree): Ctx
    requires r.Node?
  {
    MinPath(r, InRight(l, MinNode(r), c))
  }

  // What the swap of node with its successor has to write.
  ghost predicate Swapped(h: Links, h': Links, c: Ctx, l: Tree, node: PriceLevel, r: Tree)
    requires l.Node? && r.Node?
  {
    var succ, sr := MinNode(r), MinRight(r);
    var sp := if r.left.Leaf? then node else SpineEnd(r);
    var all := CtxNodes(c) + Nodes(Node(l, node, r));
    all <= h.Keys && all <= h'.Keys && {succ, node, l.lv, r.lv, sp} <= all &&
    h'[succ] == Link(Par(c), l.lv, if r.left.Leaf? then node else r.lv, h'[succ].height) &&
    h'[node] == Link(if r.left.Leaf? then succ else sp, null, Root(sr), 1 + Height(sr)) &&
    h'[l.lv] == h[l.lv].(parent := succ) &&
    (c.InLeft? ==> c.lv in all && h'[c.lv] == h[c.lv].(left := succ)) &&
    (c.InRight? ==> c.lv in all && h'[c.lv] == h[c.lv].(right := succ)) &&
    (sr.Node? ==> sr.lv in all && h'[sr.lv] == h[sr.lv].(parent := node)) &&
    (r.left.Node? && r.lv == sp ==> h'[sp] == h[sp].(parent := succ, left := node)) &&
    (r.left.Node? && r.lv != sp ==> h'[r.lv] == h[r.lv].(parent := succ) && h'[sp] == h[sp].(left := node)) &&
    SameOn(h, h', all - {succ, node, l.lv, r.lv, sp, Par(c), Root(sr)})
  }

  // The parts around a node with two children share no object.
  lemma SwapRegions(c: Ctx, l: Tree, node: PriceLevel, r: Tree)
    requires l.Node? && r.Node? && Apart(c, Node(l, node, r))
    ensures Nodes(l) !! Nodes(r) && CtxNodes(c) !! Nodes(r) && CtxNodes(c) !! Nodes(l)
    ensures node !in Nodes(l) + Nodes(r) + CtxNodes(c)
    ensures Nodes(Node(l, node, r)) == Nodes(l) + {node} + Nodes(r)
    ensures l.lv in Nodes(l) && r.lv in Nodes(r) && (c.Top? || Par(c) in CtxNodes(c))
    ensures Distinct(l) && Distinct(r)
  {
  }

  lemma SpineRegions(r: Tree)
    requires r.Node? && Distinct(r)
    ensures MinNode(r) in Nodes(r) && Nodes(MinRight(r)) <= Nodes(r) && MinNode(r) !in Nodes(MinRight(r))
    ensures MinRight(r).Node? ==> MinRight(r).lv in Nodes(MinRight(r))
    ensures Distinct(MinRight(r)) && (r.lv == MinNode(r) <==> r.left.Leaf?) && r.lv !in Nodes(MinRight(r))
    ensures r.left.Node? ==> SpineEnd(r) in Nodes(r) && SpineEnd(r) != MinNode(r) && SpineEnd(r) !in Nodes(MinRight(r))
  {
    MinParts(r);
    if r.left.Node? {
      SpineFacts(r, Top);
    }
  }

  // The nodes involved in the swap are different objects.
  lemma SwapDistinct(c: Ctx, l: Tree, node: PriceLevel, r: Tree)
    requires l.Node? && r.Node? && Apart(c, Node(l, node, r))
    ensures var succ, sr := MinNode(r), MinRight(r);
      var sp := if r.left.Leaf? then node else SpineEnd(r);
      Nodes(l) !! {succ, node, r.lv, sp, Par(c), Root(sr)} && Nodes(sr) !! {succ, node, r.lv, sp, Par(c), l.lv} &&
      CtxNodes(c) !! {succ, node, r.lv, sp, Root(sr), l.lv} && Distinct(sr) &&
      succ in Nodes(r) && Nodes(sr) <= Nodes(r) && node !in Nodes(r) && sp != succ &&
      node !in Nodes(l) && node !in CtxNodes(c) && Nodes(l) !! Nodes(r) && CtxNodes(c) !! Nodes(r)
          && CtxNodes(c) !! Nodes(l)
  {
    hide Distinct, CtxDistinct, Nodes, CtxNodes, MinNode, MinRight, SpineEnd, Apart;
    SwapRegions(c, l, node, r);
    SpineRegions(r);
    var sp := if r.left.Leaf? then node else SpineEnd(r);
    RolesApart(CtxNodes(c), Nodes(l), Nodes(r), Nodes(MinRight(r)), Par(c), l.lv, node, r.lv, MinNode(r), sp,
        Root(MinRight(r)));
  }

  // The places of the nodes around a swap: np in the context a, nl in the left
  // subtree l, the others in the right subtree r, whose part m hangs below succ.
  lemma RolesApart(a: set<PriceLevel>, l: set<PriceLevel>, r: set<PriceLevel>, m: set<PriceLevel>,
      np: PriceLevel?, nl: PriceLevel, node: PriceLevel, nr: PriceLevel, succ: PriceLevel, sp: PriceLevel,
          sr: PriceLevel?)
    requires a !! l && a !! r && l !! r && m <= r && node !in a + l + r
    requires (np != null ==> np in a) && nl in l && nr in r && succ in r && (sr != null ==> sr in m)
    requires succ !in m && nr !in m && (sp == node || (sp in r && sp !in m && sp != succ))
    requires succ == nr <==> sp == node
    ensures SwapRoles(np, nl, node, nr, succ, sp, sr)
    ensures l !! {succ, node, nr, sp, np, sr} && m !! {succ, node, nr, sp, np, nl} && a !! {succ, node, nr, sp, sr, nl}
    ensures {node, succ, nl, nr, sp} + Some(np) + Some(sr) <= a + (l + {node} + r)
  {
  }

  lemma HalfNode(n: PriceLevel, r: Tree)
    ensures Nodes(Node(Leaf, n, r)) == {n} + Nodes(r)
    ensures n !in Nodes(r) && Distinct(r) ==> Distinct(Node(Leaf, n, r))
  {
    assert Nodes(Leaf) == {};
  }

  lemma SwapApart(c: Ctx, l: Tree, node: PriceLevel, r: Tree)
    requires l.Node? && r.Node? && Apart(c, Node(l, node, r))
    ensures Apart(SwapCtx(c, l, r), Node(Leaf, node, MinRight(r)))
    ensures CtxNodes(SwapCtx(c, l, r)) + Nodes(Node(Leaf, node, MinRight(r))) == CtxNodes(c) + Nodes(Node(l, node, r))
  {
    var succ, sr, outer := MinNode(r), MinRight(r), InRight(l, MinNode(r), c);
    SwapDistinct(c, l, node, r);
    assert CtxDistinct(outer) && CtxNodes(outer) == CtxNodes(c) + {succ} + Nodes(l);
    HalfNode(node, sr);
    assert Nodes(Node(l, node, r)) == Nodes(l) + {node} + Nodes(r);
    hide CtxDistinct, Distinct, CtxNodes, Nodes;
    MinPathApart(r, outer);
  }

  lemma SwapOuter(h: Links, h': Links, c: Ctx, l: Tree, node: PriceLevel, r: Tree)
    requires l.Node? && r.Node? && Apart(c, Node(l, node, r))
    requires TreeIn(h, Par(c), Node(l, node, r)) && CtxIn(h, node, c)
    requires Swapped(h, h', c, l, node, r)
    ensures CtxIn(h', if r.left.Leaf? then node else r.lv, InRight(l, MinNode(r), c))
  {
    SwapDistinct(c, l, node, r);
    CtxRelinked(h, h', node, MinNode(r), c);
    TreeMoved(h, h', node, MinNode(r), l);
  }

  lemma SwapInner(h: Links, h': Links, c: Ctx, l: Tree, node: PriceLevel, r: Tree)
    requires l.Node? && r.Node? && Apart(c, Node(l, node, r))
    requires TreeIn(h, Par(c), Node(l, node, r)) && CtxIn(h, node, c)
    requires Swapped(h, h', c, l, node, r)
    ensures TreeIn(h', if r.left.Leaf? then MinNode(r) else SpineEnd(r), Node(Leaf, node, MinRight(r)))
  {
    SwapDistinct(c, l, node, r);
    MinRightIn(h, node, r);
    TreeMoved(h, h', MinNode(r), node, MinRight(r));
  }

  // After it, the successor stands in node's place and node in the successor's.
  lemma SwapLinks(h: Links, h': Links, c: Ctx, l: Tree, node: PriceLevel, r: Tree)
    requires l.Node? && r.Node? && Apart(c, Node(l, node, r))
    requires TreeIn(h, Par(c), Node(l, node, r)) && CtxIn(h, node, c)
    requires Swapped(h, h', c, l, node, r)
    ensures CtxIn(h', node, SwapCtx(c, l, r))
    ensures TreeIn(h', Par(SwapCtx(c, l, r)), Node(Leaf, node, MinRight(r)))
  {
    SwapOuter(h, h', c, l, node, r);
    SwapInner(h, h', c, l, node, r);
    if r.left.Node? {
      hide CtxIn, TreeIn;
      SwapDistinct(c, l, node, r);
      SpineFacts(r, InRight(l, MinNode(r), c));
      assert r.lv in h && h[r.lv] == Link(node, r.left.lv, Root(r.right), Height(r)) && TreeIn(h, node, r)
          by { RightIn(h, c, l, node, r); }
      SpineRelinked(h, h', node, r, InRight(l, MinNode(r), c), node);
    }
  }

  lemma RightIn(h: Links, c: Ctx, l: Tree, node: PriceLevel, r: Tree)
    requires TreeIn(h, Par(c), Node(l, node, r)) && r.Node?
    ensures TreeIn(h, node, r) && r.lv in h && h[r.lv] == Link(node, Root(r.left), Root(r.right), Height(r))
  {
  }

  lemma {:induction false} MinRightIn(h: Links, par: PriceLevel?, t: Tree)
    requires t.Node? && TreeIn(h, par, t)
    ensures TreeIn(h, MinNode(t), MinRight(t))
    ensures MinNode(t) in h && h[MinNode(t)].right == Root(MinRight(t)) && h[MinNode(t)].left == null
    ensures h[MinNode(t)].parent == if t.left.Node? then SpineEnd(t) else par
    decreases t
  {
    if t.left.Node? {
      MinRightIn(h, t.lv, t.left);
    }
  }

  // ---------- Removal in the heap ----------

  // Walks to the left-most node of the right subtree.
  method FindSuccessor(node: PriceLevel, ghost s: set<PriceLevel>, ghost par: PriceLevel?, ghost r: Tree)
      returns (succ: PriceLevel)
    requires r.Node? && node.right == r.lv && Nodes(r) <= s && TreeIn(Snap(s), par, r)
    ensures succ == MinNode(r)
  {
    succ := node.right;
    ghost var t, p := r, par;
    while succ.left != null
      invariant t.Node? && succ == t.lv && Nodes(t) <= s && TreeIn(Snap(s), p, t) && MinNode(t) == MinNode(r)
      decreases t
    {
      assert LinkOf(succ) == Snap(s)[succ];
      t, p := t.left, succ;
      succ := succ.left;
    }
    assert LinkOf(succ) == Snap(s)[succ];
  }

  // The objects whose fields a swap writes.
  ghost function SwapSet(node: PriceLevel, succ: PriceLevel): set<PriceLevel>
    reads node, succ
  {
    {node, succ} + Some(node.parent) + Some(node.left) + Some(node.right) + Some(succ.parent) + Some(succ.right)
  }

  ghost function Some(n: PriceLevel?): set<PriceLevel> {
    if n == null then {} else {n}
  }

  // The nodes around a swap are different objects, except that the successor may
  // be the right child, and the right child may be the successor's parent.
  ghost predicate SwapRoles(np: PriceLevel?, nl: PriceLevel?, node: PriceLevel, nr: PriceLevel?, succ: PriceLevel,
      sp: PriceLevel?, sr: PriceLevel?) {
    nl != null && nr != null && sp != null && node != succ &&
    nl !in {node, succ, nr, np, sp, sr} && nr != node && (succ == nr <==> sp == node) && sp != succ &&
    (np != null ==> np !in {node, succ, nr, sp, sr}) && (sr != null ==> sr !in {node, succ, nr, sp})
  }

  ghost predicate SwapReady(node: PriceLevel, succ: PriceLevel)
    reads node, succ
  {
    SwapRoles(node.parent, node.left, node, node.right, succ, succ.parent, succ.right)
  }

  // Exchanges the places of node and its successor.
  method SwapFields(root: PriceLevel?, node: PriceLevel, succ: PriceLevel) returns (newRoot: PriceLevel?)
    requires SwapReady(node, succ)
    modifies SwapSet(node, succ)`parent, SwapSet(node, succ)`left, SwapSet(node, succ)`right, SwapSet(node, succ)`height
    ensures newRoot == if old(node.parent) == null then succ else root
    ensures succ.parent == old(node.parent) && succ.left == old(node.left)
    ensures succ.right == if succ == old(node.right) then node else old(node.right)
    ensures node.parent == (if succ == old(node.right) then succ else old(succ.parent))
    ensures node.left == null && node.right == old(succ.right) && node.height == 1 + Max(0, old(HeightOf(succ.right)))
    ensures LinkOf(old(node.left)) == old(LinkOf(node.left)).(parent := succ)
    ensures old(succ.right) != null ==> LinkOf(old(succ.right)) == old(LinkOf(succ.right)).(parent := node)
    ensures old(node.parent) != null && old(node.parent.left) == node ==>
      LinkOf(old(node.parent)) == old(LinkOf(node.parent)).(left := succ)
    ensures old(node.parent) != null && old(node.parent.left) != node ==>
      LinkOf(old(node.parent)) == old(LinkOf(node.parent)).(right := succ)
    ensures succ != old(node.right) && old(node.right) == old(succ.parent) ==>
      LinkOf(old(node.right)) == old(LinkOf(node.right)).(parent := succ, left := node)
    ensures succ != old(node.right) && old(node.right) != old(succ.parent) ==>
      LinkOf(old(node.right)) == old(LinkOf(node.right)).(parent := succ) &&
      LinkOf(old(succ.parent)) == old(LinkOf(succ.parent)).(left := node)
  {
    newRoot := root;
    var direct := succ == node.right;
    var nodePar := node.parent;
    var nodeLeft := node.left;
    var nodeRight := node.right;
    var succPar := succ.parent;
    var succRight := succ.right;

    succ.parent := nodePar;
    succ.left := nodeLeft;
    nodeLeft.parent := succ;
    if nodePar != null {
      if nodePar.left == node {
        nodePar.left := succ;
      } else {
        nodePar.right := succ;
      }
    } else {
      newRoot := succ;
    }
    if direct {
      succ.right := node;
      node.parent := succ;
    } else {
      succ.right := nodeRight;
      nodeRight.parent := succ;
      succPar.left := node;
      node.parent := succPar;
    }
    node.left := null;
    node.right := succRight;
    if succRight != null {
      succRight.parent := node;
    }
    succ.height := node.height;
    UpdateHeight(node);
  }

  // What the links next to a node and its successor say.
  ghost predicate Neighbours(h: Links, c: Ctx, l: Tree, node: PriceLevel, r: Tree)
    requires l.Node? && r.Node?
  {
    var succ, sr := MinNode(r), MinRight(r);
    node in h && h[node] == Link(Par(c), l.lv, r.lv, Height(Node(l, node, r))) &&
    succ in h && h[succ] == Link(if r.left.Leaf? then node else SpineEnd(r), null, Root(sr), h[succ].height) &&
    RootIn(h, sr) && Height(sr) == (if sr.Leaf? then 0 else h[sr.lv].height) &&
    (succ == r.lv <==> r.left.Leaf?) &&
    (!c.Top? ==> c.lv in h && (h[c.lv].left == node <==> c.InLeft?))
  }

  lemma SwapNeighbours(h: Links, c: Ctx, l: Tree, node: PriceLevel, r: Tree)
    requires l.Node? && r.Node? && Apart(c, Node(l, node, r))
    requires TreeIn(h, Par(c), Node(l, node, r)) && CtxIn(h, node, c)
    ensures Neighbours(h, c, l, node, r)
  {
    MinRightIn(h, node, r);
    if !c.Top? {
      FrameSide(h, c, Node(l, node, r));
    }
    if r.left.Node? {
      SpineFacts(r, c);
    }
  }

  lemma SwapRolesAt(c: Ctx, l: Tree, node: PriceLevel, r: Tree)
    requires l.Node? && r.Node? && Apart(c, Node(l, node, r))
    ensures var sp := if r.left.Leaf? then node else SpineEnd(r);
      SwapRoles(Par(c), l.lv, node, r.lv, MinNode(r), sp, Root(MinRight(r))) &&
      {node, MinNode(r), l.lv, r.lv, sp} + Some(Par(c)) + Some(Root(MinRight(r))) <= CtxNodes(c) + Nodes(Node(l,
          node, r))
  {
    hide Distinct, CtxDistinct, Nodes, CtxNodes, MinNode, MinRight, SpineEnd, Apart, SwapRoles, Some;
    SwapRegions(c, l, node, r);
    SpineRegions(r);
    var sp := if r.left.Leaf? then node else SpineEnd(r);
    RolesApart(CtxNodes(c), Nodes(l), Nodes(r), Nodes(MinRight(r)), Par(c), l.lv, node, r.lv, MinNode(r), sp,
        Root(MinRight(r)));
  }

  // The pointers next to a node and its successor are as the swap needs them.
  lemma SwapReadyAt(s: set<PriceLevel>, c: Ctx, l: Tree, node: PriceLevel, r: Tree)
    requires l.Node? && r.Node? && Apart(c, Node(l, node, r)) && CtxNodes(c) + Nodes(Node(l, node, r)) <= s
    requires TreeIn(Snap(s), Par(c), Node(l, node, r)) && CtxIn(Snap(s), node, c)
    ensures SwapReady(node, MinNode(r))
    ensures SwapSet(node, MinNode(r)) <= CtxNodes(c) + Nodes(Node(l, node, r))
  {
    hide Distinct, CtxDistinct, TreeIn, CtxIn, MinNode, MinRight, Nodes, CtxNodes, Height, SwapRoles, SpineEnd;
    SwapRolesAt(c, l, node, r);
    SwapNeighbours(Snap(s), c, l, node, r);
    assert LinkOf(node) == Snap(s)[node] && LinkOf(MinNode(r)) == Snap(s)[MinNode(r)];
  }

  // What SwapFields writes, as links before and after.
  ghost predicate SwapWritten(h: Links, h': Links, node: PriceLevel, succ: PriceLevel) {
    h'.Keys == h.Keys && node in h && succ in h &&
    PairWritten(h, h', node, succ) && OuterWritten(h, h', node, succ) && InnerWritten(h, h', node, succ) &&
    SameOn(h, h', h.Keys - Written(h[node], h[succ], node, succ))
  }

  ghost function Written(n: Link, s: Link, node: PriceLevel, succ: PriceLevel): set<PriceLevel?> {
    {node, succ, n.parent, n.left, n.right, s.parent, s.right}
  }

  // The two nodes that change places.
  ghost predicate PairWritten(h: Links, h': Links, node: PriceLevel, succ: PriceLevel)
    requires h'.Keys == h.Keys && node in h && succ in h
  {
    var nr, sr := h[node].right, h[succ].right;
    h'[succ] == Link(h[node].parent, h[node].left, if succ == nr then node else nr, h'[succ].height) &&
    h'[node].parent == (if succ == nr then succ else h[succ].parent) && h'[node].left == null && h'[node].right == sr &&
    (sr == null ==> h'[node].height == 1) &&
    (sr != null && sr in h ==> h'[node].height == 1 + Max(0, h[sr].height))
  }

  // The neighbours that stay above and to the left, and below the successor.
  ghost predicate OuterWritten(h: Links, h': Links, node: PriceLevel, succ: PriceLevel)
    requires h'.Keys == h.Keys && node in h && succ in h
  {
    var np, nl, sr := h[node].parent, h[node].left, h[succ].right;
    (sr != null && sr in h ==> h'[sr] == h[sr].(parent := node)) &&
    (nl != null && nl in h ==> h'[nl] == h[nl].(parent := succ)) &&
    (np != null && np in h ==> h'[np] == if h[np].left == node then h[np].(left := succ) else h[np].(right := succ))
  }

  // The nodes between the two.
  ghost predicate InnerWritten(h: Links, h': Links, node: PriceLevel, succ: PriceLevel)
    requires h'.Keys == h.Keys && node in h && succ in h
  {
    var nr, sp := h[node].right, h[succ].parent;
    (succ != nr && nr == sp && nr != null && nr in h ==> h'[nr] == h[nr].(parent := succ, left := node)) &&
    (succ != nr && nr != sp && nr != null && nr in h ==> h'[nr] == h[nr].(parent := succ)) &&
    (succ != nr && nr != sp && sp != null && sp in h ==> h'[sp] == h[sp].(left := node))
  }

  method SwapSnap(root: PriceLevel?, node: PriceLevel, succ: PriceLevel, ghost s: set<PriceLevel>)
      returns (newRoot: PriceLevel?)
    requires SwapReady(node, succ) && node in s && succ in s
    modifies SwapSet(node, succ)`parent, SwapSet(node, succ)`left, SwapSet(node, succ)`right, SwapSet(node, succ)`height
    ensures newRoot == if old(node.parent) == null then succ else root
    ensures SwapWritten(old(Snap(s)), Snap(s), node, succ)
  {
    hide SwapRoles;
    ghost var h := Snap(s);
    newRoot := SwapFields(root, node, succ);
    ghost var h' := Snap(s);
    WrittenParts(h, h', node, succ);
  }

  // The parts of what a swap writes, put together.
  lemma WrittenParts(h: Links, h': Links, node: PriceLevel, succ: PriceLevel)
    requires h'.Keys == h.Keys && node in h && succ in h
    requires forall n :: n in h && n !in Written(h[node], h[succ], node, succ) ==> h'[n] == h[n]
    requires PairWritten(h, h', node, succ) && OuterWritten(h, h', node, succ) && InnerWritten(h, h', node, succ)
    ensures SwapWritten(h, h', node, succ)
  {
  }

  lemma WrittenSwapped(h: Links, h': Links, c: Ctx, l: Tree, node: PriceLevel, r: Tree)
    requires l.Node? && r.Node? && SwapWritten(h, h', node, MinNode(r)) && Neighbours(h, c, l, node, r)
    requires CtxNodes(c) + Nodes(Node(l, node, r)) <= h.Keys
    requires Some(Root(MinRight(r))) + Some(Par(c)) + {node, MinNode(r), l.lv, r.lv,
        if r.left.Leaf? then node else SpineEnd(r)}
      <= CtxNodes(c) + Nodes(Node(l, node, r))
    ensures Swapped(h, h', c, l, node, r)
  {
    hide MinNode, MinRight, Nodes, CtxNodes, SpineEnd;
  }

  // Moves a node with two children to the place of its in-order successor.
  method SwapWithSuccessor(root: PriceLevel?, node: PriceLevel, ghost s: set<PriceLevel>, ghost c: Ctx,
      ghost l: Tree, ghost r: Tree)
    returns (newRoot: PriceLevel?)
    requires l.Node? && r.Node? && Apart(c, Node(l, node, r)) && CtxNodes(c) + Nodes(Node(l, node, r)) <= s
    requires TreeIn(Snap(s), Par(c), Node(l, node, r)) && CtxIn(Snap(s), node, c)
    modifies (CtxNodes(c) + Nodes(Node(l, node, r)))`parent, (CtxNodes(c) + Nodes(Node(l, node, r)))`left
    modifies (CtxNodes(c) + Nodes(Node(l, node, r)))`right, (CtxNodes(c) + Nodes(Node(l, node, r)))`height
    ensures CtxIn(Snap(s), node, SwapCtx(c, l, r))
    ensures TreeIn(Snap(s), Par(SwapCtx(c, l, r)), Node(Leaf, node, MinRight(r)))
    ensures newRoot == if c.Top? then MinNode(r) else root
  {
    hide Distinct, CtxDistinct, TreeIn, CtxIn, MinNode, MinRight, Nodes, CtxNodes, Height, SpineEnd, SwapCtx,
        Apart, Swapped, SwapRoles, SwapWritten;
    ghost var h := Snap(s);
    RightIn(h, c, l, node, r);
    SwapReadyAt(s, c, l, node, r);
    SwapNeighbours(h, c, l, node, r);
    SwapRolesAt(c, l, node, r);
    assert LinkOf(node) == h[node];
    assert Nodes(r) <= s by { SwapRegions(c, l, node, r); }
    var succ := FindSuccessor(node, s, node, r);
    assert LinkOf(node) == h[node];
    newRoot := SwapSnap(root, node, succ, s);
    WrittenSwapped(h, Snap(s), c, l, node, r);
    SwapLinks(h, Snap(s), c, l, node, r);
  }

  // Links the only child of node, if any, to node's parent, and detaches node.
  method SpliceFields(root: PriceLevel?, node: PriceLevel) returns (newRoot: PriceLevel?, start: PriceLevel?)
    requires node.left == null || node.right == null
    requires node !in {node.parent, node.left, node.right}
    requires node.parent != null ==> node.parent !in {node.left, node.right}
    modifies node`parent, node`left, node`right, node`height, Some(node.parent)`left, Some(node.parent)`right
    modifies Some(node.left)`parent, Some(node.right)`parent
    ensures start == old(node.parent) && LinkOf(node) == Link(null, null, null, 1)
    ensures var child := old(if node.right != null then node.right else node.left);
      newRoot == (if start == null then child else root) && (child != null ==> child.parent == start) &&
      (start != null && old(node.parent.left) == node ==>
         start.left == child && start.right == old(node.parent.right)) &&
      (start != null && old(node.parent.left) != node ==> start.right == child && start.left == old(node.parent.left))
  {
    newRoot := root;
    var child := if node.right != null then node.right else node.left;
    start := node.parent;
    if node.parent != null {
      if node.parent.left == node {
        node.parent.left := child;
      } else {
        node.parent.right := child;
      }
    } else {
      newRoot := child;
    }
    if child != null {
      child.parent := node.parent;
    }
    node.parent, node.left, node.right := null, null, null;
    node.height := 1;
  }

  // What is left of a node with at most one subtree once the node is gone.
  ghost function Only(l: Tree, r: Tree): Tree {
    if r.Node? then r else l
  }

  lemma SpliceApart(c: Ctx, l: Tree, node: PriceLevel, r: Tree)
    requires (l.Leaf? || r.Leaf?) && Apart(c, Node(l, node, r))
    ensures Apart(c, Only(l, r)) && node !in CtxNodes(c) + Nodes(Only(l, r))
    ensures CtxNodes(c) + Nodes(Node(l, node, r)) == CtxNodes(c) + Nodes(Only(l, r)) + {node}
    ensures Only(l, r).Node? ==> Root(Only(l, r)) in Nodes(Only(l, r))
    ensures c.Top? || Par(c) in CtxNodes(c)
  {
    assert Nodes(Leaf) == {};
  }

  lemma SpliceLinks(h: Links, h': Links, c: Ctx, l: Tree, node: PriceLevel, r: Tree)
    requires (l.Leaf? || r.Leaf?) && Apart(c, Node(l, node, r))
    requires TreeIn(h, Par(c), Node(l, node, r)) && CtxIn(h, node, c)
    requires h.Keys == h'.Keys
    requires Only(l, r).Node? ==> Only(l, r).lv in h && h'[Only(l, r).lv] == h[Only(l, r).lv].(parent := Par(c))
    requires c.InLeft? ==> c.lv in h && h'[c.lv] == h[c.lv].(left := Root(Only(l, r)))
    requires c.InRight? ==> c.lv in h && h'[c.lv] == h[c.lv].(right := Root(Only(l, r)))
    requires SameOn(h, h', h.Keys - {node, Root(Only(l, r)), Par(c)})
    ensures TreeIn(h', Par(c), Only(l, r)) && CtxIn(h', Root(Only(l, r)), c)
  {
    SpliceApart(c, l, node, r);
    TreeMoved(h, h', node, Par(c), Only(l, r));
    CtxRelinked(h, h', node, Root(Only(l, r)), c);
  }

  // The pointers next to a node with at most one subtree.
  lemma SpliceReady(s: set<PriceLevel>, c: Ctx, l: Tree, node: PriceLevel, r: Tree)
    requires (l.Leaf? || r.Leaf?) && Apart(c, Node(l, node, r)) && CtxNodes(c) + Nodes(Node(l, node, r)) <= s
    requires TreeIn(Snap(s), Par(c), Node(l, node, r)) && CtxIn(Snap(s), node, c)
    ensures node in s && node.parent == Par(c) && node.left == Root(l) && node.right == Root(r)
    ensures !c.Top? ==> c.lv in s && (c.lv.left == node <==> c.InLeft?)
  {
    assert Snap(s)[node] == LinkOf(node);
    if !c.Top? {
      FrameSide(Snap(s), c, Node(l, node, r));
      assert LinkOf(c.lv) == Snap(s)[c.lv];
    }
  }

  method SpliceOut(root: PriceLevel?, node: PriceLevel, ghost s: set<PriceLevel>, ghost c: Ctx, ghost l: Tree,
      ghost r: Tree)
    returns (newRoot: PriceLevel?, start: PriceLevel?)
    requires (l.Leaf? || r.Leaf?) && Apart(c, Node(l, node, r)) && CtxNodes(c) + Nodes(Node(l, node, r)) <= s
    requires TreeIn(Snap(s), Par(c), Node(l, node, r)) && CtxIn(Snap(s), node, c)
    modifies (CtxNodes(c) + Nodes(Node(l, node, r)))`parent, (CtxNodes(c) + Nodes(Node(l, node, r)))`left
    modifies (CtxNodes(c) + Nodes(Node(l, node, r)))`right, (CtxNodes(c) + Nodes(Node(l, node, r)))`height
    ensures start == Par(c) && LinkOf(node) == Link(null, null, null, 1)
    ensures TreeIn(Snap(s), Par(c), Only(l, r)) && CtxIn(Snap(s), Root(Only(l, r)), c)
    ensures newRoot == if c.Top? then Root(Only(l, r)) else root
  {
    hide CtxIn, CtxDistinct, TreeIn, Distinct, Nodes, CtxNodes, Apart;
    ghost var h := Snap(s);
    SpliceApart(c, l, node, r);
    SpliceReady(s, c, l, node, r);
    newRoot, start := SpliceFields(root, node);
    SpliceLinks(h, Snap(s), c, l, node, r);
  }

  // Removes any node of a tree and rebalances; returns the new root.
  method AvlRemove(root: PriceLevel?, node: PriceLevel, ghost s: set<PriceLevel>, ghost c: Ctx, ghost l: Tree,
      ghost r: Tree)
    returns (newRoot: PriceLevel?)
    requires root == Root(Plug(c, Node(l, node, r))) && Distinct(Plug(c, Node(l, node, r)))
    requires Nodes(Plug(c, Node(l, node, r))) <= s && TreeIn(Snap(s), null, Plug(c, Node(l, node, r)))
    modifies Nodes(Plug(c, Node(l, node, r)))`parent, Nodes(Plug(c, Node(l, node, r)))`left
    modifies Nodes(Plug(c, Node(l, node, r)))`right, Nodes(Plug(c, Node(l, node, r)))`height
    ensures newRoot == Root(Removed(c, l, r)) && TreeIn(Snap(s), null, Removed(c, l, r))
    ensures LinkOf(node) == Link(null, null, null, 1)
  {
    hide Distinct, CtxDistinct, CtxIn, Nodes, CtxNodes, Rebalance, MinPath, MinNode, MinRight;
    PlugSplits(Snap(s), c, Node(l, node, r));
    PlugDistinct(c, Node(l, node, r));
    PlugNodes(c, Node(l, node, r));
    assert Snap(s)[node] == LinkOf(node) && node.left == Root(l) && node.right == Root(r);
    hide TreeIn;
    ghost var c1, l1, r1 := c, l, r;
    newRoot := root;
    if node.left != null && node.right != null {
      newRoot := SwapWithSuccessor(root, node, s, c, l, r);
      SwapApart(c, l, node, r);
      c1, l1, r1 := SwapCtx(c, l, r), Leaf, MinRight(r);
    }
    SpliceApart(c1, l1, node, r1);
    var start;
    newRoot, start := SpliceOut(newRoot, node, s, c1, l1, r1);
    newRoot := RebalanceUp(start, newRoot, s, c1, Only(l1, r1));
  }

  // ---------- In-order neighbours ----------

  function First(s: seq<PriceLevel>): PriceLevel? {
    if s == [] then null else s[0]
  }

  function Last(s: seq<PriceLevel>): PriceLevel? {
    if s == [] then null else s[|s| - 1]
  }

  method TreeMin(root: PriceLevel?, ghost s: set<PriceLevel>, ghost par: PriceLevel?, ghost t: Tree)
      returns (n: PriceLevel?)
    requires root == Root(t) && Nodes(t) <= s && TreeIn(Snap(s), par, t)
    ensures n == First(InOrder(t))
  {
    n := root;
    ghost var u, p := t, par;
    while n != null && n.left != null
      invariant n == Root(u) && Nodes(u) <= s && TreeIn(Snap(s), p, u)
      invariant First(InOrder(u)) == First(InOrder(t))
      decreases u
    {
      assert LinkOf(n) == Snap(s)[n];
      u, p, n := u.left, n, n.left;
    }
    assert n != null ==> LinkOf(n) == Snap(s)[n];
  }

  method TreeMax(root: PriceLevel?, ghost s: set<PriceLevel>, ghost par: PriceLevel?, ghost t: Tree)
      returns (n: PriceLevel?)
    requires root == Root(t) && Nodes(t) <= s && TreeIn(Snap(s), par, t)
    ensures n == Last(InOrder(t))
  {
    n := root;
    ghost var u, p := t, par;
    while n != null && n.right != null
      invariant n == Root(u) && Nodes(u) <= s && TreeIn(Snap(s), p, u)
      invariant Last(InOrder(u)) == Last(InOrder(t))
      decreases u
    {
      assert LinkOf(n) == Snap(s)[n];
      u, p, n := u.right, n, n.right;
    }
    assert n != null ==> LinkOf(n) == Snap(s)[n];
  }

  // The node after n: the left-most of its right subtree, or else the first
  // ancestor for which n belongs to the left subtree.
  method SuccessorAt(n: PriceLevel, ghost s: set<PriceLevel>, ghost c: Ctx, ghost l: Tree, ghost r: Tree)
      returns (next: PriceLevel?)
    requires Apart(c, Node(l, n, r)) && CtxNodes(c) + Nodes(Node(l, n, r)) <= s
    requires TreeIn(Snap(s), Par(c), Node(l, n, r)) && CtxIn(Snap(s), n, c)
    ensures next == First(InOrder(r) + After(c))
  {
    assert LinkOf(n) == Snap(s)[n];
    if n.right != null {
      next := TreeMin(n.right, s, n, r);
      return;
    }
    next := ClimbFromRight(n, s, c, Node(l, n, r));
  }

  // Climbs until n is in a left subtree; the node above is the next one.
  method ClimbFromRight(n: PriceLevel, ghost s: set<PriceLevel>, ghost c: Ctx, ghost t: Tree)
      returns (next: PriceLevel?)
    requires t.Node? && t.lv == n && Apart(c, t) && CtxNodes(c) + Nodes(t) <= s
    requires n.parent == Par(c) && CtxIn(Snap(s), n, c)
    ensures next == First(After(c))
  {
    hide Distinct, CtxDistinct, CtxIn, Nodes, CtxNodes;
    var cur := n;
    ghost var cc, tt := c, t;
    StandsAt(s, cc, tt);
    while cur.parent != null && cur.parent.right == cur
      invariant tt.Node? && cur == tt.lv && Standing(s, cc, tt) && First(After(cc)) == First(After(c))
      decreases cc
    {
      StandsUp(s, cc, tt);
      cc, tt, cur := Pop(cc), Open(cc, tt), cur.parent;
    }
    next := cur.parent;
  }

  method ClimbFromLeft(n: PriceLevel, ghost s: set<PriceLevel>, ghost c: Ctx, ghost t: Tree)
      returns (prior: PriceLevel?)
    requires t.Node? && t.lv == n && Apart(c, t) && CtxNodes(c) + Nodes(t) <= s
    requires n.parent == Par(c) && CtxIn(Snap(s), n, c)
    ensures prior == Last(Before(c))
  {
    hide Distinct, CtxDistinct, CtxIn, Nodes, CtxNodes;
    var cur := n;
    ghost var cc, tt := c, t;
    StandsAt(s, cc, tt);
    while cur.parent != null && cur.parent.left == cur
      invariant tt.Node? && cur == tt.lv && Standing(s, cc, tt) && Last(Before(cc)) == Last(Before(c))
      decreases cc
    {
      StandsUp(s, cc, tt);
      cc, tt, cur := Pop(cc), Open(cc, tt), cur.parent;
    }
    prior := cur.parent;
  }

  // The root of t stands in the hole of c, and the links around it tell on which
  // side of its parent.
  ghost predicate Standing(s: set<PriceLevel>, c: Ctx, t: Tree)
    reads s
  {
    t.Node? && Apart(c, t) && CtxNodes(c) + Nodes(t) <= s && CtxIn(Snap(s), t.lv, c) &&
    t.lv in s && t.lv.parent == Par(c) &&
    (!c.Top? ==> c.lv in s && (c.lv.left == t.lv <==> c.InLeft?) && (c.lv.right == t.lv <==> c.InRight?))
  }

  lemma StandsAt(s: set<PriceLevel>, c: Ctx, t: Tree)
    requires t.Node? && Apart(c, t) && CtxNodes(c) + Nodes(t) <= s && CtxIn(Snap(s), t.lv, c) && t.lv.parent == Par(c)
    ensures Standing(s, c, t)
  {
    if !c.Top? {
      FrameSide(Snap(s), c, t);
      assert LinkOf(c.lv) == Snap(s)[c.lv];
    }
  }

  lemma StandsUp(s: set<PriceLevel>, c: Ctx, t: Tree)
    requires !c.Top? && Standing(s, c, t)
    ensures Standing(s, Pop(c), Open(c, t)) && Open(c, t).lv == t.lv.parent
  {
    assert LinkOf(c.lv) == Snap(s)[c.lv];
    StandsAt(s, Pop(c), Open(c, t));
  }

  // The node before n, likewise.
  method PredecessorAt(n: PriceLevel, ghost s: set<PriceLevel>, ghost c: Ctx, ghost l: Tree, ghost r: Tree)
      returns (prior: PriceLevel?)
    requires Apart(c, Node(l, n, r)) && CtxNodes(c) + Nodes(Node(l, n, r)) <= s
    requires TreeIn(Snap(s), Par(c), Node(l, n, r)) && CtxIn(Snap(s), n, c)
    ensures prior == Last(Before(c) + InOrder(l))
  {
    assert LinkOf(n) == Snap(s)[n];
    if n.left != null {
      prior := TreeMax(n.left, s, n, l);
      return;
    }
    prior := ClimbFromLeft(n, s, c, Node(l, n, r));
  }

  // A position in the in-order sequence of a tree fixes a zipper.
  lemma LocateIndex(t: Tree, k: nat) returns (c: Ctx, l: Tree, r: Tree)
    requires Sorted(InOrder(t)) && k < |InOrder(t)|
    ensures Plug(c, Node(l, InOrder(t)[k], r)) == t
    ensures Before(c) + InOrder(l) == InOrder(t)[..k] && InOrder(r) + After(c) == InOrder(t)[k + 1..]
  {
    var s, n := InOrder(t), InOrder(t)[k];
    NodeAt(t, k);
    c, l, r := Locate(t, Top, n);
    PlugNodeInOrder(c, l, n, r);
    var a, b := Before(c) + InOrder(l), InOrder(r) + After(c);
    assert s == a + [n] + b && s[|a|] == n;
    assert |a| == k;
  }

  method InorderSuccessor(n: PriceLevel, ghost t: Tree, ghost k: nat) returns (next: PriceLevel?)
    requires Sorted(InOrder(t)) && Distinct(t) && TreeIn(Snap(Nodes(t)), null, t)
    requires k < |InOrder(t)| && n == InOrder(t)[k]
    ensures next == if k + 1 < |InOrder(t)| then InOrder(t)[k + 1] else null
  {
    hide Distinct, Nodes, TreeIn, CtxIn, Sorted;
    ghost var c, l, r := LocateIndex(t, k);
    PlugSplits(Snap(Nodes(t)), c, Node(l, n, r));
    PlugDistinct(c, Node(l, n, r));
    PlugNodes(c, Node(l, n, r));
    next := SuccessorAt(n, Nodes(t), c, l, r);
  }

  method InorderPredecessor(n: PriceLevel, ghost t: Tree, ghost k: nat) returns (prior: PriceLevel?)
    requires Sorted(InOrder(t)) && Distinct(t) && TreeIn(Snap(Nodes(t)), null, t)
    requires k < |InOrder(t)| && n == InOrder(t)[k]
    ensures prior == if k > 0 then InOrder(t)[k - 1] else null
  {
    hide Distinct, Nodes, TreeIn, CtxIn, Sorted;
    ghost var c, l, r := LocateIndex(t, k);
    PlugSplits(Snap(Nodes(t)), c, Node(l, n, r));
    PlugDistinct(c, Node(l, n, r));
    PlugNodes(c, Node(l, n, r));
    prior := PredecessorAt(n, Nodes(t), c, l, r);
  }
}
