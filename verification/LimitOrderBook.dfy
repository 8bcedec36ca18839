// The limit order book: an id map, two sides (tree, price map, best pointer) and
// a list per level, all kept in step with the reference book of BookSpec.
module LimitBook {
  import opened MarketData
  import opened Levels
  import opened LevelTree
  import opened PriceLevelTree
  import opened BookIndex
  import opened BookSpec
  import opened LevelList
  import opened Sequences

  type OrderMap = map<u64, OrderEntry>
  type Queues = map<PriceLevel, seq<OrderEntry>>

  // Every queued entry is registered under its id and points at its level, and
  // every registered entry is queued there.
  ghost predicate Placed(queues: Queues, orders: OrderMap) {
    (forall lv :: lv in queues ==> Homed(lv, queues[lv], orders)) &&
    (forall id :: id in orders ==> Registered(id, orders[id], queues))
  }

  ghost predicate Homed(lv: PriceLevel, q: seq<OrderEntry>, orders: OrderMap) {
    forall i :: 0 <= i < |q| ==> q[i].level == lv && q[i].orderId in orders && orders[q[i].orderId] == q[i]
  }

  ghost predicate Registered(id: u64, e: OrderEntry, queues: Queues) {
    e.orderId == id && e.level in queues && e in queues[e.level]
  }

  // A level without orders can go.
  lemma ListsOkGone(queues: Queues, orders: OrderMap, book: Book, bids: set<PriceLevel>, lv: PriceLevel)
    requires ListsOk(queues, orders, book, bids) && lv in queues && queues[lv] == []
    ensures ListsOk(queues - {lv}, orders, book, bids - {lv})
    ensures Level(book, SideIn(lv, bids), lv.price) == []
  {
    hide Linked, Level;
    assert LevelHolds(lv, queues[lv], Level(book, SideIn(lv, bids), lv.price));
    forall id | id in orders ensures Registered(id, orders[id], queues - {lv}) {
      assert Registered(id, orders[id], queues);
    }
  }

  lemma GoneCovers(book: Book, bids: LevelMap, asks: LevelMap, side: Side, price: i64)
    requires Covers(book, bids, asks) && Level(book, side, price) == [] && side != NoSide && WellFormed(book)
    ensures side == Buy ==> Covers(book, bids - {price}, asks)
    ensures side == Sell ==> Covers(book, bids, asks - {price})
  {
    forall i | 0 <= i < |book| ensures !(book[i].side == side && book[i].price == price) {
      LevelUpdate(book, i, book[i], side, price);
    }
  }

  lemma WithoutNoneEmpty(queues: Queues, lv: PriceLevel, q: seq<OrderEntry>)
    requires NoneEmpty(queues, null)
    ensures NoneEmpty(queues[lv := q], if q == [] then lv else null)
  {
  }

  lemma WithoutCovers(book: Book, bids: LevelMap, asks: LevelMap, i: nat)
    requires Covers(book, bids, asks) && i < |book|
    ensures Covers(Without(book, i), bids, asks)
  {
    var b := Without(book, i);
    forall j | 0 <= j < |b| ensures b[j].price in if b[j].side == Buy then bids else asks {
      assert b[j] == book[if j < i then j else j + 1];
    }
  }

  // Every order's level exists.
  ghost predicate Covers(book: Book, bids: LevelMap, asks: LevelMap) {
    forall i :: 0 <= i < |book| ==> book[i].price in if book[i].side == Buy then bids else asks
  }

  // Every level but possibly one has orders.
  ghost predicate NoneEmpty(queues: Queues, empty: PriceLevel?) {
    forall lv :: lv in queues && queues[lv] == [] ==> lv == empty
  }

  lemma JoinCovers(book: Book, bids: LevelMap, asks: LevelMap, o: Order)
    requires Covers(book, bids, asks) && o.price in if o.side == Buy then bids else asks
    ensures Covers(book + [o], bids, asks)
  {
  }

  lemma JoinNoneEmpty(queues: Queues, empty: PriceLevel?, lv: PriceLevel, q: seq<OrderEntry>)
    requires NoneEmpty(queues, empty) && (empty == null || empty == lv) && q != []
    ensures NoneEmpty(queues[lv := q], null)
  {
  }

  ghost function SideIn(lv: PriceLevel, bids: set<PriceLevel>): Side {
    if lv in bids then Buy else Sell
  }

  // Every level's list holds exactly the book's orders at that side and price,
  // in the book's order.
  ghost predicate ListsOk(queues: Queues, orders: OrderMap, book: Book, bids: set<PriceLevel>)
    reads queues.Keys`front, queues.Keys`back, queues.Keys`orderCount, queues.Keys`totalQuantity
    reads orders.Values`next, orders.Values`prev, orders.Values`quantity, orders.Values`lastUpdate
  {
    Placed(queues, orders) &&
    forall lv :: lv in queues ==> LevelHolds(lv, queues[lv], Level(book, SideIn(lv, bids), lv.price))
  }

  lemma ListsOkNew(queues: Queues, orders: OrderMap, book: Book, bids: set<PriceLevel>, lv: PriceLevel,
      bids': set<PriceLevel>)
    requires ListsOk(queues, orders, book, bids) && lv !in queues && LevelHolds(lv, [], [])
    requires bids' == bids + {lv} || (bids' == bids && lv !in bids)
    requires Level(book, SideIn(lv, bids'), lv.price) == []
    ensures ListsOk(queues[lv := []], orders, book, bids')
  {
    hide LevelHolds, Level;
  }

  ghost function Elsewhere(orders: OrderMap, lv: PriceLevel): set<OrderEntry> {
    set e | e in orders.Values && e.level != lv
  }

  // The same for every level but one.
  ghost predicate OthersOk(queues: Queues, orders: OrderMap, book: Book, bids: set<PriceLevel>, lv: PriceLevel)
    reads (queues.Keys - {lv})`front, (queues.Keys - {lv})`back, (queues.Keys - {lv})`orderCount,
        (queues.Keys - {lv})`totalQuantity
    reads Elsewhere(orders, lv)`next, Elsewhere(orders, lv)`prev, Elsewhere(orders, lv)`quantity, Elsewhere(orders,
        lv)`lastUpdate
  {
    Placed(queues, orders) &&
    forall m :: m in queues && m != lv ==>
      (forall i :: 0 <= i < |queues[m]| ==> queues[m][i] in Elsewhere(orders, lv)) &&
      LevelHolds(m, queues[m], Level(book, SideIn(m, bids), m.price))
  }

  lemma SplitLists(queues: Queues, orders: OrderMap, book: Book, bids: set<PriceLevel>, lv: PriceLevel)
    requires ListsOk(queues, orders, book, bids) && lv in queues
    ensures OthersOk(queues, orders, book, bids, lv)
    ensures LevelHolds(lv, queues[lv], Level(book, SideIn(lv, bids), lv.price))
    ensures forall i :: 0 <= i < |queues[lv]| ==>
      queues[lv][i] in orders.Values && queues[lv][i] !in Elsewhere(orders, lv)
  {
    hide LevelHolds, Level;
  }

  // No two levels of a side have the same price.
  ghost predicate Separate(levels: set<PriceLevel>, bids: set<PriceLevel>) {
    forall a, b :: a in levels && b in levels && a != b ==> SideIn(a, bids) != SideIn(b, bids) || a.price != b.price
  }

  lemma JoinLists(queues: Queues, orders: OrderMap, book: Book, bids: set<PriceLevel>, lv: PriceLevel,
      oe: OrderEntry, o: Order)
    requires OthersOk(queues, orders, book, bids, lv) && Separate(queues.Keys, bids) && lv in queues
    requires o.side == SideIn(lv, bids) && o.price == lv.price
    requires oe.level == lv && oe.orderId == o.id && o.id !in orders
    requires LevelHolds(lv, queues[lv] + [oe], Level(book, o.side, o.price) + [o])
    ensures ListsOk(queues[lv := queues[lv] + [oe]], orders[o.id := oe], book + [o], bids)
  {
    hide LevelHolds, Level;
    var queues', orders' := queues[lv := queues[lv] + [oe]], orders[o.id := oe];
    forall m | m in queues'
      ensures Homed(m, queues'[m], orders') && LevelHolds(m, queues'[m], Level(book + [o], SideIn(m, bids), m.price))
    {
      LevelPush(book, o, SideIn(m, bids), m.price);
      assert Level(book, o.side, o.price) + [] == Level(book, o.side, o.price);
      assert Level(book, SideIn(m, bids), m.price) + [] == Level(book, SideIn(m, bids), m.price);
    }
    forall id | id in orders' ensures Registered(id, orders'[id], queues') {
      assert id != o.id ==> Registered(id, orders[id], queues);
      assert oe in queues'[lv] by { assert queues'[lv][|queues[lv]|] == oe; }
    }
  }

  // Taking the k-th entry of a level out of its list takes the i-th order out of the book.
  lemma LeaveLists(queues: Queues, orders: OrderMap, book: Book, bids: set<PriceLevel>, lv: PriceLevel, k: nat, i: nat)
    requires OthersOk(queues, orders, book, bids, lv) && Separate(queues.Keys, bids) && lv in queues
    requires i < |book| && book[i].side == SideIn(lv, bids) && book[i].price == lv.price
    requires k < |queues[lv]| && k == Rank(book, i, book[i].side, book[i].price) && NoDuplicates(queues[lv])
    requires k < |Level(book, book[i].side, book[i].price)|
    requires LevelHolds(lv, Without(queues[lv], k), Without(Level(book, book[i].side, book[i].price), k))
    ensures ListsOk(queues[lv := Without(queues[lv], k)], orders - {queues[lv][k].orderId}, Without(book, i), bids)
  {
    hide LevelHolds, Level;
    var q, oe := queues[lv], queues[lv][k];
    var queues', orders' := queues[lv := Without(q, k)], orders - {oe.orderId};
    assert Homed(lv, q, orders) && oe.level == lv && orders[oe.orderId] == oe;
    WithoutKeeps(q, k);
    forall m | m in queues'
      ensures Homed(m, queues'[m], orders') && LevelHolds(m, queues'[m], Level(Without(book, i), SideIn(m, bids),
          m.price))
    {
      LevelWithout(book, i, SideIn(m, bids), m.price);
      assert Homed(m, queues[m], orders);
    }
    forall id | id in orders' ensures Registered(id, orders'[id], queues') {
      assert Registered(id, orders[id], queues);
    }
  }

  // Taking an entry out of a list without duplicates leaves the other entries.
  lemma WithoutKeeps(q: seq<OrderEntry>, k: nat)
    requires k < |q| && NoDuplicates(q)
    ensures forall e :: e in Without(q, k) <==> e in q && e != q[k]
    ensures forall j :: 0 <= j < |Without(q, k)| ==> Without(q, k)[j] in q && Without(q, k)[j] != q[k]
  {
    forall e | e in q && e != q[k] ensures e in Without(q, k) {
      var j :| 0 <= j < |q| && q[j] == e;
      assert Without(q, k)[if j < k then j else j - 1] == e;
    }
  }

  // Changing an order's size and time changes its entry and nothing else.
  lemma ResizeLists(queues: Queues, orders: OrderMap, book: Book, bids: set<PriceLevel>, lv: PriceLevel, k: nat,
      i: nat, o: Order)
    requires OthersOk(queues, orders, book, bids, lv) && Separate(queues.Keys, bids) && lv in queues
    requires i < |book| && book[i].side == SideIn(lv, bids) && book[i].price == lv.price
    requires o.side == book[i].side && o.price == book[i].price
    requires k < |queues[lv]| && k == Rank(book, i, o.side, o.price) && k < |Level(book, o.side, o.price)|
    requires LevelHolds(lv, queues[lv], Level(book, o.side, o.price)[k := o])
    ensures ListsOk(queues, orders, book[i := o], bids)
  {
    hide LevelHolds, Level;
    forall m | m in queues
      ensures LevelHolds(m, queues[m], Level(book[i := o], SideIn(m, bids), m.price))
    {
      LevelUpdate(book, i, o, SideIn(m, bids), m.price);
    }
  }

  // oe is the entry of the i-th order, at rank k of its level's list.
  ghost predicate Stands(queues: Queues, book: Book, bids: set<PriceLevel>, oe: OrderEntry, k: nat, i: nat) {
    oe.level in queues && i < |book| && book[i].side == SideIn(oe.level, bids) && book[i].price == oe.level.price &&
    k < |queues[oe.level]| && queues[oe.level][k] == oe && k == Rank(book, i, book[i].side, book[i].price) &&
    k < |Level(book, book[i].side, book[i].price)| && Level(book, book[i].side, book[i].price)[k] == book[i]
  }

  // Appends an entry to one level; the other levels keep their lists.
  method PutBackBeside(ghost queues: Queues, ghost orders: OrderMap, ghost book: Book, ghost bids: set<PriceLevel>,
      lv: PriceLevel, oe: OrderEntry, ghost os: Book, ghost o: Order)
    requires ListsOk(queues, orders, book, bids) && lv in queues && oe !in orders.Values
    requires oe.level == lv && oe.next == null && oe.prev == null && EntryIs(oe, o)
    requires os == Level(book, SideIn(lv, bids), lv.price)
    modifies lv`front, lv`back, lv`orderCount, lv`totalQuantity, oe`prev, orders.Values`next
    ensures OthersOk(queues, orders, book, bids, lv) && LevelHolds(lv, queues[lv] + [oe], os + [o])
  {
    hide LevelHolds, Level, ListsOk;
    SplitLists(queues, orders, book, bids, lv);
    PutBack(lv, oe, queues[lv], os, o);
  }

  method PutBackIn(ghost queues: Queues, ghost orders: OrderMap, ghost book: Book, ghost bids: set<PriceLevel>,
      lv: PriceLevel, oe: OrderEntry, ghost o: Order)
    requires ListsOk(queues, orders, book, bids) && lv in queues && oe !in orders.Values
    requires oe.level == lv && oe.next == null && oe.prev == null && EntryIs(oe, o)
    requires Separate(queues.Keys, bids) && o.id !in orders && o.side == SideIn(lv, bids) && o.price == lv.price
    modifies lv`front, lv`back, lv`orderCount, lv`totalQuantity, oe`prev, orders.Values`next
    ensures ListsOk(queues[lv := queues[lv] + [oe]], orders[o.id := oe], book + [o], bids)
  {
    hide LevelHolds, Level, ListsOk, OthersOk, Separate;
    PutBackBeside(queues, orders, book, bids, lv, oe, Level(book, o.side, o.price), o);
    JoinLists(queues, orders, book, bids, lv, oe, o);
  }

  // Takes an entry out of its level; the other levels keep their lists.
  method TakeOutBeside(ghost queues: Queues, ghost orders: OrderMap, ghost book: Book, ghost bids: set<PriceLevel>,
      oe: OrderEntry, ghost os: Book, ghost k: nat)
    requires ListsOk(queues, orders, book, bids) && oe.level in queues && k < |queues[oe.level]|
        && queues[oe.level][k] == oe
    requires os == Level(book, SideIn(oe.level, bids), oe.level.price) && k < |os|
    modifies oe.level`front, oe.level`back, oe.level`orderCount, oe.level`totalQuantity, orders.Values`next,
        orders.Values`prev
    ensures OthersOk(queues, orders, book, bids, oe.level) && NoDuplicates(queues[oe.level])
    ensures LevelHolds(oe.level, Without(queues[oe.level], k), Without(os, k))
  {
    SplitLists(queues, orders, book, bids, oe.level);
    assert NoDuplicates(queues[oe.level]);
    hide LevelHolds, Level, ListsOk, NoDuplicates;
    TakeOut(oe, queues[oe.level], os, k);
  }

  method TakeOutIn(ghost queues: Queues, ghost orders: OrderMap, ghost book: Book, ghost bids: set<PriceLevel>,
      oe: OrderEntry, ghost k: nat, ghost i: nat)
    requires ListsOk(queues, orders, book, bids) && Separate(queues.Keys, bids) && Stands(queues, book, bids, oe, k, i)
    modifies oe.level`front, oe.level`back, oe.level`orderCount, oe.level`totalQuantity, orders.Values`next,
        orders.Values`prev
    ensures ListsOk(queues[oe.level := Without(queues[oe.level], k)], orders - {oe.orderId}, Without(book, i), bids)
    ensures oe.level.orderCount == |Without(queues[oe.level], k)|
  {
    hide Linked, Level, ListsOk, OthersOk, Separate, NoDuplicates, Total;
    TakeOutBeside(queues, orders, book, bids, oe, Level(book, book[i].side, book[i].price), k);
    LeaveLists(queues, orders, book, bids, oe.level, k, i);
  }

  method ResizeBeside(ghost queues: Queues, ghost orders: OrderMap, ghost book: Book, ghost bids: set<PriceLevel>,
      oe: OrderEntry, remaining: u32, time: i64, ghost os: Book, ghost k: nat)
    requires ListsOk(queues, orders, book, bids) && oe.level in queues && k < |queues[oe.level]|
        && queues[oe.level][k] == oe
    requires os == Level(book, SideIn(oe.level, bids), oe.level.price) && k < |os|
    modifies oe.level`totalQuantity, oe`quantity, oe`lastUpdate
    ensures OthersOk(queues, orders, book, bids, oe.level)
    ensures LevelHolds(oe.level, queues[oe.level], os[k := os[k].(quantity := remaining, lastUpdate := time)])
  {
    hide LevelHolds, Level, ListsOk;
    SplitLists(queues, orders, book, bids, oe.level);
    Resize(oe, remaining, time, queues[oe.level], os, k);
  }

  method ResizeIn(ghost queues: Queues, ghost orders: OrderMap, ghost book: Book, ghost bids: set<PriceLevel>,
      oe: OrderEntry, remaining: u32, time: i64, ghost k: nat, ghost i: nat)
    requires ListsOk(queues, orders, book, bids) && Separate(queues.Keys, bids) && Stands(queues, book, bids, oe, k, i)
    modifies oe.level`totalQuantity, oe`quantity, oe`lastUpdate
    ensures ListsOk(queues, orders, book[i := book[i].(quantity := remaining, lastUpdate := time)], bids)
  {
    hide LevelHolds, Level, ListsOk, OthersOk, Separate;
    ResizeBeside(queues, orders, book, bids, oe, remaining, time, Level(book, book[i].side, book[i].price), k);
    ResizeLists(queues, orders, book, bids, oe.level, k, i, book[i].(quantity := remaining, lastUpdate := time));
  }

  class LimitOrderBook {
    var bidTree: PriceLevel?
    var askTree: PriceLevel?
    var bestBid: PriceLevel?
    var bestAsk: PriceLevel?
    var bidLevels: LevelMap
    var askLevels: LevelMap
    var orders: OrderMap

    // The shapes of the trees, the contents of the lists, and the book they stand for.
    ghost var bidShape: Tree
    ghost var askShape: Tree
    ghost var queues: Queues
    ghost var book: Book

    // ---------- One side or the other ----------

    function TreeFor(side: Side): PriceLevel?
      reads this`bidTree, this`askTree
    {
      if side == Buy then bidTree else askTree
    }

    function BestFor(side: Side): PriceLevel?
      reads this`bestBid, this`bestAsk
    {
      if side == Buy then bestBid else bestAsk
    }

    function LevelsFor(side: Side): LevelMap
      reads this`bidLevels, this`askLevels
    {
      if side == Buy then bidLevels else askLevels
    }

    ghost function ShapeFor(side: Side): Tree
      reads this`bidShape, this`askShape
    {
      if side == Buy then bidShape else askShape
    }

    ghost function SideOf(lv: PriceLevel): Side
      reads this`bidShape
    {
      SideIn(lv, Nodes(bidShape))
    }

    // ---------- The invariant ----------

    ghost predicate SideGood(side: Side)
      reads this`bidTree, this`askTree, this`bestBid, this`bestAsk, this`bidLevels, this`askLevels, this`bidShape,
          this`askShape
      reads Nodes(ShapeFor(side))`parent, Nodes(ShapeFor(side))`left, Nodes(ShapeFor(side))`right,
          Nodes(ShapeFor(side))`height
    {
      SideOk(TreeFor(side), BestFor(side), LevelsFor(side), ShapeFor(side), side)
    }

    ghost predicate TreesGood(levels: set<PriceLevel>)
      reads this`bidTree, this`askTree, this`bestBid, this`bestAsk, this`bidLevels, this`askLevels, this`bidShape,
          this`askShape
      reads levels`parent, levels`left, levels`right, levels`height
    {
      Nodes(bidShape) !! Nodes(askShape) && levels == Nodes(bidShape) + Nodes(askShape) &&
      SideGood(Buy) && SideGood(Sell)
    }

    // All views agree with the book; only the level `empty` may have no orders.
    ghost predicate Sound(empty: PriceLevel?)
      reads this, queues.Keys, orders.Values
    {
      TreesGood(queues.Keys) && ListsOk(queues, orders, book, Nodes(bidShape)) && WellFormed(book) &&
      Covers(book, bidLevels, askLevels) && NoneEmpty(queues, empty)
    }

    ghost predicate Valid()
      reads this, queues.Keys, orders.Values
    {
      Sound(null)
    }

    constructor ()
      ensures Valid() && book == [] && queues == map[] && orders == map[]
    {
      bidTree, askTree, bestBid, bestAsk := null, null, null, null;
      bidLevels, askLevels, orders := map[], map[], map[];
      bidShape, askShape, queues, book := Leaf, Leaf, map[], [];
    }

    // ---------- Levels come and go ----------

    function Other(side: Side): Side {
      if side == Buy then Sell else Buy
    }

    // The index of one side, as it is passed to and from BookIndex.
    ghost predicate SideIs(side: Side, root: PriceLevel?, best: PriceLevel?, levels: LevelMap, t: Tree)
      reads this
    {
      TreeFor(side) == root && BestFor(side) == best && LevelsFor(side) == levels && ShapeFor(side) == t
    }

    method SetSide(side: Side, root: PriceLevel?, best: PriceLevel?, levels: LevelMap, ghost t: Tree)
      modifies this`bidTree, this`askTree, this`bestBid, this`bestAsk, this`bidLevels, this`askLevels,
          this`bidShape, this`askShape
      ensures SideIs(side, root, best, levels, t)
      ensures SideIs(Other(side), old(TreeFor(Other(side))), old(BestFor(Other(side))),
          old(LevelsFor(Other(side))), old(ShapeFor(Other(side))))
    {
      if side == Buy {
        bidTree, bestBid, bidLevels, bidShape := root, best, levels, t;
      } else {
        askTree, bestAsk, askLevels, askShape := root, best, levels, t;
      }
    }

    // Changes one side's index; the other side stays sound.
    method AddToSide(lv: PriceLevel, side: Side)
      requires SideGood(side) && SideGood(Other(side)) && Nodes(ShapeFor(side)) !! Nodes(ShapeFor(Other(side)))
      requires lv.price !in LevelsFor(side) && lv !in Nodes(ShapeFor(Other(side)))
      requires Nodes(ShapeFor(side)) <= queues.Keys && Nodes(ShapeFor(Other(side))) <= queues.Keys
      modifies this`bidTree, this`askTree, this`bestBid, this`bestAsk, this`bidLevels, this`askLevels,
          this`bidShape, this`askShape
      modifies (Nodes(ShapeFor(side)) + {lv})`parent, (Nodes(ShapeFor(side)) + {lv})`left
      modifies (Nodes(ShapeFor(side)) + {lv})`right, (Nodes(ShapeFor(side)) + {lv})`height
      ensures SideGood(side) && SideGood(Other(side))
      ensures LevelsFor(side) == old(LevelsFor(side))[lv.price := lv] && LevelsFor(Other(side)) ==
          old(LevelsFor(Other(side)))
      ensures Nodes(ShapeFor(side)) == old(Nodes(ShapeFor(side))) + {lv} && ShapeFor(Other(side)) ==
          old(ShapeFor(Other(side)))
    {
      hide SideOk, Nodes;
      ghost var oroot, obest, olevels, ot := TreeFor(Other(side)), BestFor(Other(side)), LevelsFor(Other(side)),
          ShapeFor(Other(side));
      var root, best, levels;
      ghost var t;
      root, best, levels, t := AddLevel(TreeFor(side), BestFor(side), LevelsFor(side), ShapeFor(side), side, lv);
      assert SideOk(oroot, obest, olevels, ot, Other(side));
      SetSide(side, root, best, levels, t);
    }

    // Enters a new level without orders into the index of its side.
    method EnterLevel(lv: PriceLevel, side: Side)
      requires TreesGood(queues.Keys) && side != NoSide && lv !in queues && lv.price !in LevelsFor(side)
      modifies this, (queues.Keys + {lv})`parent, (queues.Keys + {lv})`left, (queues.Keys + {lv})`right,
          (queues.Keys + {lv})`height
      ensures TreesGood(queues.Keys) && queues == old(queues)[lv := []] && orders == old(orders) && book == old(book)
      ensures LevelsFor(side) == old(LevelsFor(side))[lv.price := lv]
      ensures LevelsFor(Other(side)) == old(LevelsFor(Other(side)))
      ensures SideOf(lv) == side && Nodes(bidShape) == old(Nodes(bidShape)) + (if side == Buy then {lv} else {})
    {
      hide SideOk, Nodes;
      assert SideGood(side) && SideGood(Other(side));
      hide SideGood;
      AddToSide(lv, side);
      queues := queues[lv := []];
    }

    lemma LevelsSeparate()
      requires TreesGood(queues.Keys)
      ensures Separate(queues.Keys, Nodes(bidShape))
    {
    }

    method NewLevel(side: Side, price: i64) returns (lv: PriceLevel)
      requires Valid() && side != NoSide && price !in LevelsFor(side)
      modifies this, queues.Keys`parent, queues.Keys`left, queues.Keys`right, queues.Keys`height
      ensures Sound(lv) && fresh(lv) && lv.price == price && SideOf(lv) == side
      ensures queues == old(queues)[lv := []] && orders == old(orders) && book == old(book)
    {
      hide SideOk, Nodes, WellFormed, Level, LevelHolds, ListsOk, TreesGood;
      lv := new PriceLevel(price);
      assert Level(book, side, price) == [] by { LevelEmpty(book, side, price); }
      ghost var q, bids := queues, Nodes(bidShape);
      EnterLevel(lv, side);
      EmptyLevel(lv);
      ListsOkNew(q, orders, book, bids, lv, Nodes(bidShape));
    }

    method RemoveFromSide(lv: PriceLevel, side: Side)
      requires SideGood(side) && SideGood(Other(side)) && Nodes(ShapeFor(side)) !! Nodes(ShapeFor(Other(side)))
      requires lv in Nodes(ShapeFor(side))
      requires Nodes(ShapeFor(side)) <= queues.Keys && Nodes(ShapeFor(Other(side))) <= queues.Keys
      modifies this`bidTree, this`askTree, this`bestBid, this`bestAsk, this`bidLevels, this`askLevels,
          this`bidShape, this`askShape
      modifies Nodes(ShapeFor(side))`parent, Nodes(ShapeFor(side))`left, Nodes(ShapeFor(side))`right,
          Nodes(ShapeFor(side))`height
      ensures SideGood(side) && SideGood(Other(side))
      ensures LevelsFor(side) == old(LevelsFor(side)) - {lv.price} && LevelsFor(Other(side)) ==
          old(LevelsFor(Other(side)))
      ensures Nodes(ShapeFor(side)) == old(Nodes(ShapeFor(side))) - {lv} && ShapeFor(Other(side)) ==
          old(ShapeFor(Other(side)))
    {
      hide SideOk, Nodes;
      ghost var oroot, obest, olevels, ot := TreeFor(Other(side)), BestFor(Other(side)), LevelsFor(Other(side)),
          ShapeFor(Other(side));
      var root, best, levels;
      ghost var t;
      root, best, levels, t := BookIndex.RemoveLevel(TreeFor(side), BestFor(side), LevelsFor(side), ShapeFor(side),
          side, lv);
      assert SideOk(oroot, obest, olevels, ot, Other(side));
      SetSide(side, root, best, levels, t);
    }

    // Takes a level out of the index of its side.
    method ExitLevel(lv: PriceLevel, side: Side)
      requires TreesGood(queues.Keys) && side != NoSide && lv in queues && SideOf(lv) == side
      modifies this, queues.Keys`parent, queues.Keys`left, queues.Keys`right, queues.Keys`height
      ensures TreesGood(queues.Keys) && queues == old(queues) - {lv} && orders == old(orders) && book == old(book)
      ensures LevelsFor(side) == old(LevelsFor(side)) - {lv.price}
      ensures LevelsFor(Other(side)) == old(LevelsFor(Other(side)))
      ensures Nodes(bidShape) == old(Nodes(bidShape)) - {lv}
    {
      hide SideOk, Nodes;
      assert SideGood(side) && SideGood(Other(side));
      hide SideGood;
      RemoveFromSide(lv, side);
      queues := queues - {lv};
    }

    // Removes a level that has run out of orders.
    method RemoveLevel(lv: PriceLevel, side: Side)
      requires Sound(lv) && lv in queues && queues[lv] == [] && SideOf(lv) == side
      modifies this, queues.Keys`parent, queues.Keys`left, queues.Keys`right, queues.Keys`height
      ensures Valid() && queues == old(queues) - {lv} && orders == old(orders) && book == old(book)
    {
      hide Nodes, WellFormed, Level, ListsOk, TreesGood, Covers;
      ghost var q, bids := queues, Nodes(bidShape);
      ListsOkGone(queues, orders, book, bids, lv);
      GoneCovers(book, bidLevels, askLevels, side, lv.price);
      ExitLevel(lv, side);
      assert ListsOk(q - {lv}, orders, book, bids - {lv}) by { assert ListsOk(q, orders, book, bids);
          ListsOkGone(q, orders, book, bids, lv); }
    }

    // ---------- Orders of the book and entries of the lists ----------

    lemma LevelKnown(lv: PriceLevel)
      requires TreesGood(queues.Keys) && lv in queues
      ensures lv.price in LevelsFor(SideOf(lv)) && LevelsFor(SideOf(lv))[lv.price] == lv
    {
    }

    lemma PriceKnown(side: Side, price: i64)
      requires TreesGood(queues.Keys) && side != NoSide && price in LevelsFor(side)
      ensures var lv := LevelsFor(side)[price]; lv in queues && SideOf(lv) == side && lv.price == price
    {
    }

    // Every order of the book has its entry, at the same rank in its level's list.
    lemma OrderHasEntry(i: nat) returns (lv: PriceLevel, k: nat)
      requires TreesGood(queues.Keys) && ListsOk(queues, orders, book, Nodes(bidShape)) && WellFormed(book)
          && Covers(book, bidLevels, askLevels)
      requires i < |book|
      ensures lv in queues && lv.price == book[i].price && SideOf(lv) == book[i].side
      ensures k == Rank(book, i, book[i].side, book[i].price) && k < |queues[lv]|
      ensures book[i].id in orders && orders[book[i].id] == queues[lv][k] && EntryIs(queues[lv][k], book[i])
    {
      hide TreesGood, Linked, Total, SideIn;
      var o := book[i];
      assert book[i].price in LevelsFor(book[i].side);
      PriceKnown(o.side, o.price);
      lv := LevelsFor(o.side)[o.price];
      k := Rank(book, i, o.side, o.price);
      LevelUpdate(book, i, o, o.side, o.price);
      assert LevelHolds(lv, queues[lv], Level(book, SideOf(lv), lv.price));
    }

    // Every registered entry stands for an order of the book.
    lemma EntryHasOrder(id: u64) returns (i: nat)
      requires TreesGood(queues.Keys) && ListsOk(queues, orders, book, Nodes(bidShape)) && WellFormed(book)
      requires id in orders
      ensures i < |book| && book[i].id == id && i == IndexOf(book, id)
      ensures orders[id].level in queues && SideOf(orders[id].level) == book[i].side && orders[id].level.price ==
          book[i].price
    {
      hide TreesGood, Linked, Total, SideIn;
      var e, lv := orders[id], orders[id].level;
      assert Registered(id, e, queues);
      var k :| 0 <= k < |queues[lv]| && queues[lv][k] == e;
      assert LevelHolds(lv, queues[lv], Level(book, SideOf(lv), lv.price));
      i := LevelMember(book, SideOf(lv), lv.price, k);
      IndexUnique(book, i);
    }

    // ---------- Orders come and go ----------

    // Takes over new lists for the same levels, with the registry and the book they stand for.
    method Commit(ghost queues': Queues, orders': OrderMap, ghost book': Book, ghost empty: PriceLevel?)
      requires TreesGood(queues.Keys) && queues'.Keys == queues.Keys && ListsOk(queues', orders', book',
          Nodes(bidShape))
      requires WellFormed(book') && Covers(book', bidLevels, askLevels) && NoneEmpty(queues', empty)
      modifies this`orders, this`queues, this`book
      ensures Sound(empty) && orders == orders' && queues == queues' && book == book'
    {
      hide Nodes, WellFormed, ListsOk, TreesGood, Covers, NoneEmpty;
      ghost var keys := queues.Keys;
      orders := orders';
      queues := queues';
      book := book';
      assert TreesGood(keys);
    }

    // Appends a new order to its level.
    method Join(lv: PriceLevel, ev: Event, ghost empty: PriceLevel?)
      requires Sound(empty) && (empty == null || empty == lv) && lv in queues && SideOf(lv) == ev.side
          && lv.price == ev.price
      requires ev.orderId !in orders && ev.side != NoSide && ev.PriceDefined()
      modifies this`orders, this`queues, this`book
      modifies queues.Keys`front, queues.Keys`back, queues.Keys`orderCount, queues.Keys`totalQuantity,
          orders.Values`next
      ensures Valid() && book == old(book) + [NewOrder(ev)] && queues.Keys == old(queues.Keys)
      ensures orders.Keys == old(orders.Keys) + {ev.orderId} && fresh(orders.Values - old(orders.Values))
    {
      hide Nodes, WellFormed, ListsOk, TreesGood, Separate, SideIn, Covers, NoneEmpty;
      ghost var q, bids, o, keys := queues[lv], Nodes(bidShape), NewOrder(ev), queues.Keys;
      LevelsSeparate();
      LevelKnown(lv);
      JoinWellFormed(o);
      JoinCovers(book, bidLevels, askLevels, o);
      var oe := new OrderEntry(ev.orderId, ev.side, ev.price, ev.size, ev.tsEvent, lv);
      PutBackIn(queues, orders, book, bids, lv, oe, o);
      assert TreesGood(keys);
      JoinNoneEmpty(queues, empty, lv, q + [oe]);
      Commit(queues[lv := q + [oe]], orders[ev.orderId := oe], book + [o], null);
    }

    lemma JoinWellFormed(o: Order)
      requires TreesGood(queues.Keys) && ListsOk(queues, orders, book, Nodes(bidShape)) && WellFormed(book)
          && Covers(book, bidLevels, askLevels)
      requires o.id !in orders && o.side != NoSide && o.price != UNDEF_PRICE
      ensures WellFormed(book + [o])
    {
      hide TreesGood, ListsOk, Covers;
      forall i | 0 <= i < |book| ensures book[i].id != o.id {
        var lv, k := OrderHasEntry(i);
      }
    }

    // Where the entry of a live order stands.
    lemma EntryStands(id: u64) returns (k: nat, i: nat)
      requires TreesGood(queues.Keys) && ListsOk(queues, orders, book, Nodes(bidShape)) && WellFormed(book)
      requires Covers(book, bidLevels, askLevels) && id in orders
      ensures Stands(queues, book, Nodes(bidShape), orders[id], k, i)
      ensures book[i].id == id && i == IndexOf(book, id) && EntryIs(orders[id], book[i])
    {
      hide TreesGood, ListsOk, Covers, WellFormed, Nodes, SideIn;
      i := EntryHasOrder(id);
      var lv;
      lv, k := OrderHasEntry(i);
      assert orders[id].level == lv by { AtHome(lv, k); }
      LevelUpdate(book, i, book[i], book[i].side, book[i].price);
    }

    lemma AtHome(lv: PriceLevel, k: nat)
      requires ListsOk(queues, orders, book, Nodes(bidShape)) && lv in queues && k < |queues[lv]|
      ensures queues[lv][k].level == lv
    {
      assert Homed(lv, queues[lv], orders);
    }

    // Removes a live order, and its level if no other order is left there.
    method DestroyOrder(oe: OrderEntry)
      requires Valid() && oe.orderId in orders && orders[oe.orderId] == oe
      modifies this, queues.Keys, orders.Values
      ensures Valid() && book == Drop(old(book), oe.orderId)
      ensures orders == old(orders) - {oe.orderId} && queues.Keys <= old(queues.Keys)
    {
      hide Nodes, WellFormed, Level, ListsOk, TreesGood, Covers, NoneEmpty, SideIn, Separate;
      ghost var k, i := EntryStands(oe.orderId);
      var lv, side := oe.level, oe.side;
      ghost var q, keys := Without(queues[lv], k), queues.Keys;
      LevelsSeparate();
      WithoutWellFormed(book, i);
      WithoutCovers(book, bidLevels, askLevels, i);
      WithoutNoneEmpty(queues, lv, q);
      TakeOutIn(queues, orders, book, Nodes(bidShape), oe, k, i);
      assert TreesGood(keys);
      Commit(queues[lv := q], orders - {oe.orderId}, Without(book, i), if q == [] then lv else null);
      if lv.orderCount == 0 {
        RemoveLevel(lv, side);
      }
    }

    method ResizeOrder(oe: OrderEntry, remaining: u32, time: i64)
      requires Valid() && oe.orderId in orders && orders[oe.orderId] == oe
      modifies this`book, queues.Keys`totalQuantity, orders.Values`quantity, orders.Values`lastUpdate
      ensures Valid()
      ensures var i := IndexOf(old(book), oe.orderId);
        i < |old(book)| && book == old(book)[i := old(book)[i].(quantity := remaining, lastUpdate := time)]
    {
      hide Nodes, WellFormed, Level, ListsOk, TreesGood, Covers, NoneEmpty, SideIn, Separate;
      ghost var k, i := EntryStands(oe.orderId);
      LevelsSeparate();
      UpdateWellFormed(book, i, book[i].(quantity := remaining, lastUpdate := time));
      UpdateCovers(book, bidLevels, askLevels, i, book[i].(quantity := remaining, lastUpdate := time));
      ResizeIn(queues, orders, book, Nodes(bidShape), oe, remaining, time, k, i);
      assert TreesGood(queues.Keys);
      book := book[i := book[i].(quantity := remaining, lastUpdate := time)];
      assert TreesGood(queues.Keys);
    }

    // ---------- Events ----------

    lemma RegisteredIsLive(id: u64)
      requires Valid()
      ensures id in orders <==> Live(book, id)
    {
      hide TreesGood, ListsOk, Covers, WellFormed, NoneEmpty;
      if id in orders {
        var i := EntryHasOrder(id);
      }
      if Live(book, id) {
        var lv, k := OrderHasEntry(IndexOf(book, id));
      }
    }

    // Brings an order down (or up) to what remains of it; unknown ids are ignored.
    method CancelOrder(ev: Event)
      requires Valid()
      modifies this, queues.Keys, orders.Values
      ensures Valid() && book == BookSpec.CancelOrder(old(book), ev)
      ensures queues.Keys <= old(queues.Keys) && orders.Values <= old(orders.Values)
      ensures ev.size == 0 ==> ev.orderId !in orders
    {
      hide Sound;
      RegisteredIsLive(ev.orderId);
      if ev.orderId !in orders {
        return;
      }
      var oe := orders[ev.orderId];
      assert oe.orderId == ev.orderId by { RegisteredId(ev.orderId); }
      if ev.size == 0 {
        DestroyOrder(oe);
      } else {
        ResizeOrder(oe, ev.size, ev.tsEvent);
      }
    }

    lemma RegisteredId(id: u64)
      requires Valid() && id in orders
      ensures orders[id].orderId == id
    {
      assert Registered(id, orders[id], queues);
    }

    method AddOrder(ev: Event)
      requires Valid()
      modifies this, queues.Keys, orders.Values
      ensures Valid() && book == BookSpec.AddOrder(old(book), ev)
      ensures fresh(queues.Keys - old(queues.Keys)) && fresh(orders.Values - old(orders.Values))
    {
      hide Sound, SideOf;
      if ev.side == NoSide || !ev.PriceDefined() {
        return;
      }
      RegisteredIsLive(ev.orderId);
      if ev.orderId in orders {
        CancelOrder(ev.(size := 0));
      }
      Append(ev);
    }

    // Finds or creates the level of a new order and appends the order there.
    method Append(ev: Event)
      requires Valid() && ev.orderId !in orders && ev.side != NoSide && ev.PriceDefined()
      modifies this, queues.Keys, orders.Values
      ensures Valid() && book == old(book) + [NewOrder(ev)]
      ensures fresh(queues.Keys - old(queues.Keys)) && fresh(orders.Values - old(orders.Values))
    {
      hide Sound, SideOf;
      if ev.price in LevelsFor(ev.side) {
        var lv := LevelsFor(ev.side)[ev.price];
        assert lv in queues && SideOf(lv) == ev.side && lv.price == ev.price by { KnownLevel(ev.side, ev.price); }
        Join(lv, ev, null);
      } else {
        var lv := NewLevel(ev.side, ev.price);
        Join(lv, ev, lv);
      }
    }

    lemma KnownLevel(side: Side, price: i64)
      requires Valid() && side != NoSide && price in LevelsFor(side)
      ensures var lv := LevelsFor(side)[price]; lv in queues && SideOf(lv) == side && lv.price == price
    {
      PriceKnown(side, price);
    }

    method ModifyOrder(ev: Event)
      requires Valid()
      modifies this, queues.Keys, orders.Values
      ensures Valid() && book == BookSpec.ModifyOrder(old(book), ev)
      ensures fresh(queues.Keys - old(queues.Keys)) && fresh(orders.Values - old(orders.Values))
    {
      hide Sound;
      RegisteredIsLive(ev.orderId);
      if ev.orderId !in orders {
        if ev.side != NoSide && ev.PriceDefined() {
          AddOrder(ev);
        }
        return;
      }
      var oe := orders[ev.orderId];
      ghost var i := IndexOf(book, ev.orderId);
      EntryRead(ev.orderId);
      var newPrice := if ev.PriceDefined() then ev.price else oe.price;
      var newSide := if ev.side != NoSide then ev.side else oe.side;
      if newPrice == oe.price && newSide == oe.side {
        if ev.size == 0 {
          CancelOrder(ev.(size := 0));
          return;
        }
        ResizeOrder(oe, ev.size, ev.tsEvent);
        return;
      }
      CancelOrder(ev.(size := 0));
      RegisteredIsLive(ev.orderId);
      AddOrder(ev.(action := Add, side := newSide, price := newPrice));
    }

    lemma EntryRead(id: u64)
      requires Valid() && id in orders
      ensures orders[id].orderId == id && IndexOf(book, id) < |book| && EntryIs(orders[id], book[IndexOf(book, id)])
      ensures book[IndexOf(book, id)].side != NoSide && book[IndexOf(book, id)].price != UNDEF_PRICE
    {
      hide TreesGood, ListsOk, Covers, NoneEmpty;
      var k, i := EntryStands(id);
    }

    method ClearBook()
      requires Valid()
      modifies this
      ensures Valid() && book == [] && queues == map[] && orders == map[]
    {
      hide SideOk, ListsOk, WellFormed, Covers, Nodes, NoneEmpty;
      orders, queues, book := map[], map[], [];
      SetSide(Buy, null, null, map[], Leaf);
      SetSide(Sell, null, null, map[], Leaf);
      NothingSound();
      assert SideGood(Buy) && SideGood(Sell);
    }

    method Apply(ev: Event)
      requires Valid()
      modifies this, queues.Keys, orders.Values
      ensures Valid() && book == BookSpec.Apply(old(book), ev)
      ensures fresh(queues.Keys - old(queues.Keys)) && fresh(orders.Values - old(orders.Values))
    {
      hide Sound, BookSpec.AddOrder, BookSpec.CancelOrder, BookSpec.ModifyOrder;
      if ev.Skipped() {
        return;
      }
      match ev.action
      case Add => AddOrder(ev);
      case Cancel => CancelOrder(ev);
      case Modify => ModifyOrder(ev);
      case Clear => ClearBook();
      case _ =>
    }

    // ---------- Queries ----------

    // What a level of the tree shows of the book.
    lemma LevelShows(side: Side, j: nat)
      requires Valid() && side != NoSide && j < |InOrder(ShapeFor(side))|
      ensures var lv := InOrder(ShapeFor(side))[j];
        lv in queues && lv.totalQuantity == Volume(book, side, lv.price) && Level(book, side, lv.price) != []
    {
      hide Linked, Level, Balanced, Sorted, TreeIn;
      var lv := InOrder(ShapeFor(side))[j];
      NodeAt(ShapeFor(side), j);
      assert LevelHolds(lv, queues[lv], Level(book, side, lv.price));
    }

    // The level of an order is in the tree.
    lemma OrderShows(side: Side, price: i64) returns (j: nat)
      requires Valid() && side != NoSide && Level(book, side, price) != []
      ensures price in LevelsFor(side)
      ensures j < |InOrder(ShapeFor(side))| && InOrder(ShapeFor(side))[j].price == price
    {
      hide Linked, Balanced, Sorted, TreeIn;
      var i := LevelMember(book, side, price, 0);
      assert book[i].price in LevelsFor(side);
      j := NodeIndex(ShapeFor(side), LevelsFor(side)[price]);
    }

    lemma BestIsBest(side: Side)
      requires Valid() && side != NoSide
      ensures IsBest(book, side, if BestFor(side) == null then None else Some(BestFor(side).price))
    {
      hide WellFormed, ListsOk, Level, Balanced, TreeIn;
      var s := InOrder(ShapeFor(side));
      if s != [] {
        var b := if side == Buy then |s| - 1 else 0;
        assert BestFor(side) == s[b];
        LevelShows(side, b);
        var i := LevelMember(book, side, s[b].price, 0);
      }
      forall i | 0 <= i < |book| && book[i].side == side
        ensures s != [] && NoWorse(side, BestFor(side).price, book[i].price)
      {
        LevelUpdate(book, i, book[i], side, book[i].price);
        var j := OrderShows(side, book[i].price);
      }
    }

    function BestPrice(side: Side): (r: Option<i64>)
      requires Valid()
      reads this, queues.Keys, orders.Values
      ensures IsBest(book, side, r)
    {
      if side == NoSide then
        None
      else
        BestIsBest(side);
        if BestFor(side) == null then None else Some(BestFor(side).price)
    }

    lemma VolumeShows(side: Side, price: i64)
      requires Valid() && side != NoSide
      ensures Volume(book, side, price) == if price in LevelsFor(side) then LevelsFor(side)[price].totalQuantity else 0
    {
      hide Linked, Level, Balanced, Sorted, TreeIn, WellFormed;
      if price in LevelsFor(side) {
        PriceKnown(side, price);
        var lv := LevelsFor(side)[price];
        assert LevelHolds(lv, queues[lv], Level(book, side, price));
      } else if Level(book, side, price) != [] {
        var j := OrderShows(side, price);
      }
    }

    function VolumeAt(side: Side, price: i64): (v: int)
      requires Valid()
      reads this, queues.Keys, orders.Values
      ensures v == if side == NoSide then 0 else Volume(book, side, price)
    {
      if side == NoSide then
        0
      else
        VolumeShows(side, price);
        if price in LevelsFor(side) then LevelsFor(side)[price].totalQuantity else 0
    }

    lemma SideEmpty(side: Side)
      requires Valid() && side != NoSide
      ensures TreeFor(side) == null <==> !HasSide(book, side)
    {
      hide Level, Balanced, Sorted, TreeIn, ListsOk;
      BestIsBest(side);
    }

    predicate Empty(side: Side)
      requires Valid()
      reads this, queues.Keys, orders.Values
      ensures Empty(side) <==> if side == NoSide then book == [] else !HasSide(book, side)
    {
      SideEmpty(Buy);
      SideEmpty(Sell);
      NoSideNoOrder();
      match side
      case Buy => bidTree == null
      case Sell => askTree == null
      case NoSide => bidTree == null && askTree == null
    }

    lemma NoSideNoOrder()
      requires Valid()
      ensures book == [] <==> !HasSide(book, Buy) && !HasSide(book, Sell)
    {
      hide TreesGood, ListsOk, Covers, NoneEmpty;
      if book != [] {
        assert book[0].side == Buy || book[0].side == Sell;
      }
    }

    // The j-th best level.
    ghost function Nth(side: Side, j: nat): PriceLevel
      requires j < |InOrder(ShapeFor(side))|
      reads this`bidShape, this`askShape
    {
      var s := InOrder(ShapeFor(side));
      if side == Buy then s[|s| - 1 - j] else s[j]
    }

    // Price and volume of the first levels of a side, best first.
    ghost predicate Listed(side: Side, out: seq<(i64, int)>)
      reads this`bidShape, this`askShape, this`book
    {
      |out| <= |InOrder(ShapeFor(side))| &&
      forall j :: 0 <= j < |out| ==> out[j].0 == Nth(side, j).price && out[j].1 == Volume(book, side, Nth(side,
          j).price)
    }

    lemma ListedIsList(side: Side, out: seq<(i64, int)>)
      requires Valid() && side != NoSide && Listed(side, out) && |out| == |InOrder(ShapeFor(side))|
      ensures IsLevelList(book, side, out)
    {
      hide WellFormed, ListsOk, Level, Balanced, TreeIn, TreesGood;
      var s := InOrder(ShapeFor(side));
      assert Sorted(s) by { TreeSorted(side); }
      forall j | 0 <= j < |out| ensures Level(book, side, out[j].0) != [] {
        LevelShows(side, if side == Buy then |s| - 1 - j else j);
      }
      forall p: i64 | Level(book, side, p) != [] ensures exists j :: 0 <= j < |out| && out[j].0 == p {
        var i := OrderShows(side, p);
        assert out[if side == Buy then |s| - 1 - i else i].0 == p;
      }
    }

    lemma TreeSorted(side: Side)
      requires TreesGood(queues.Keys)
      ensures var t := ShapeFor(side);
        Sorted(InOrder(t)) && Distinct(t) && TreeIn(Snap(Nodes(t)), null, t) && BestFor(side) == BestOf(t, side)
    {
      assert SideGood(Buy) && SideGood(Sell);
    }

    lemma ValidSorted(side: Side)
      requires Valid()
      ensures var t := ShapeFor(side);
        Sorted(InOrder(t)) && Distinct(t) && TreeIn(Snap(Nodes(t)), null, t) && BestFor(side) == BestOf(t, side)
    {
      TreeSorted(side);
    }

    // One step of the listing: the level the pointer is at.
    lemma NthShows(side: Side, lv: PriceLevel, j: nat)
      requires Valid() && side != NoSide && j < |InOrder(ShapeFor(side))| && lv == Nth(side, j)
      ensures lv.totalQuantity == Volume(book, side, lv.price)
    {
      LevelShows(side, if side == Buy then |InOrder(ShapeFor(side))| - 1 - j else j);
    }

    // The next worse level: the in-order predecessor of a bid, successor of an ask.
    method NextLevel(side: Side, lv: PriceLevel, ghost j: nat) returns (next: PriceLevel?)
      requires Valid() && side != NoSide && j < |InOrder(ShapeFor(side))| && lv == Nth(side, j)
      ensures next == if j + 1 < |InOrder(ShapeFor(side))| then Nth(side, j + 1) else null
    {
      hide Sound, Sorted, Distinct, TreeIn, Nodes;
      ValidSorted(side);
      if side == Buy {
        next := InorderPredecessor(lv, bidShape, |InOrder(bidShape)| - 1 - j);
      } else {
        next := InorderSuccessor(lv, askShape, j);
      }
    }

    method SideLevels(side: Side) returns (out: seq<(i64, int)>)
      requires Valid()
      ensures side == NoSide ==> out == []
      ensures side != NoSide ==> IsLevelList(book, side, out)
    {
      hide Valid, Sorted, Distinct, TreeIn, IsLevelList, Nodes, InOrder, Listed, Nth, Volume;
      out := [];
      if side == NoSide {
        return;
      }
      BestIsFirst(side);
      var lv := BestFor(side);
      while lv != null
        invariant Valid() && Listed(side, out) && |out| <= |InOrder(ShapeFor(side))|
        invariant lv == if |out| < |InOrder(ShapeFor(side))| then Nth(side, |out|) else null
        decreases |InOrder(ShapeFor(side))| - |out|
      {
        NthShows(side, lv, |out|);
        ListedMore(side, out);
        ghost var j := |out|;
        out := out + [(lv.price, lv.totalQuantity)];
        lv := NextLevel(side, lv, j);
      }
      ListedIsList(side, out);
    }

    lemma BestIsFirst(side: Side)
      requires Valid()
      ensures Listed(side, [])
      ensures BestFor(side) == if |InOrder(ShapeFor(side))| > 0 then Nth(side, 0) else null
    {
      ValidSorted(side);
    }

    lemma ListedMore(side: Side, out: seq<(i64, int)>)
      requires Listed(side, out) && |out| < |InOrder(ShapeFor(side))|
      ensures Listed(side, out + [(Nth(side, |out|).price, Volume(book, side, Nth(side, |out|).price))])
      ensures Listed(side, out)
    {
    }
  }

  lemma NothingSound()
    ensures SideOk(null, null, map[], Leaf, Buy) && SideOk(null, null, map[], Leaf, Sell) && Nodes(Leaf) == {}
    ensures ListsOk(map[], map[], [], {}) && WellFormed([]) && Covers([], map[], map[])
    ensures NoneEmpty(map[], null)
  {
  }

  lemma UpdateCovers(book: Book, bids: LevelMap, asks: LevelMap, i: nat, o: Order)
    requires Covers(book, bids, asks) && i < |book| && o.side == book[i].side && o.price == book[i].price
    ensures Covers(book[i := o], bids, asks)
  {
  }

  lemma IndexUnique(b: Book, i: nat)
    requires WellFormed(b) && i < |b|
    ensures IndexOf(b, b[i].id) == i
  {
  }

  lemma EmptyLevel(lv: PriceLevel)
    requires lv.front == null && lv.back == null && lv.orderCount == 0 && lv.totalQuantity == 0
    ensures LevelHolds(lv, [], [])
  {
  }

  // A level without orders in the book shows nothing.
  lemma {:induction false} LevelEmpty(b: Book, side: Side, price: i64)
    requires forall i :: 0 <= i < |b| ==> !(b[i].side == side && b[i].price == price)
    ensures Level(b, side, price) == []
  {
    if b != [] {
      LevelEmpty(b[..|b| - 1], side, price);
    }
  }
}
