// The doubly linked list of orders at one price level, with the level's count
// and total, and the operations on it.
module LevelList {
  import opened MarketData
  import opened Levels
  import opened BookSpec
  import opened Sequences

  function Front(q: seq<OrderEntry>): OrderEntry? {
    if q == [] then null else q[0]
  }

  function Back(q: seq<OrderEntry>): OrderEntry? {
    if q == [] then null else q[|q| - 1]
  }

  ghost predicate NoDuplicates(q: seq<OrderEntry>) {
    forall i, j :: 0 <= i < j < |q| ==> q[i] != q[j]
  }

  // lv heads a doubly linked list of exactly the entries of q, in this order.
  ghost predicate Linked(lv: PriceLevel, q: seq<OrderEntry>)
    reads lv`front, lv`back, q`next, q`prev
  {
    lv.front == Front(q) && lv.back == Back(q) && NoDuplicates(q) &&
    forall i :: 0 <= i < |q| ==> LinkedAt(lv, q, i)
  }

  ghost predicate LinkedAt(lv: PriceLevel, q: seq<OrderEntry>, i: nat)
    requires i < |q|
    reads q`next, q`prev
  {
    q[i].level == lv &&
    q[i].next == (if i + 1 < |q| then q[i + 1] else null) &&
    q[i].prev == (if i > 0 then q[i - 1] else null)
  }

  ghost predicate EntryIs(e: OrderEntry, o: Order)
    reads e`quantity, e`lastUpdate
  {
    e.orderId == o.id && e.side == o.side && e.price == o.price && e.quantity == o.quantity &&
    e.entryTime == o.entryTime && e.lastUpdate == o.lastUpdate
  }

  // The entries of q hold the orders os, and the level counts and sums them up.
  ghost predicate Valued(lv: PriceLevel, q: seq<OrderEntry>, os: Book)
    reads lv`orderCount, lv`totalQuantity, q`quantity, q`lastUpdate
  {
    |os| == |q| && lv.orderCount == |q| && lv.totalQuantity == Total(os) &&
    forall i :: 0 <= i < |q| ==> EntryIs(q[i], os[i])
  }

  // ---------- Width of the totals ----------

  // A level's total stays far inside 64 bits as long as it has fewer than 2^31 orders.
  lemma {:induction false} TotalFits(b: Book)
    ensures Total(b) <= |b| * 0xFFFF_FFFF
    ensures |b| <= 0x7FFF_FFFF ==> Total(b) < 0x8000_0000_0000_0000
  {
    if b != [] {
      TotalFits(b[..|b| - 1]);
    }
  }

  // ---------- List operations ----------

  // Takes the i-th entry out of the list.
  method UnlinkOrder(oe: OrderEntry, ghost q: seq<OrderEntry>, ghost i: nat)
    requires i < |q| && q[i] == oe && Linked(oe.level, q)
    modifies oe.level`front, oe.level`back, q`next, q`prev
    ensures Linked(oe.level, Without(q, i))
  {
    var lv := oe.level;
    ghost var r := Without(q, i);
    assert LinkedAt(lv, q, i);
    if oe.prev != null {
      oe.prev.next := oe.next;
    } else {
      lv.front := oe.next;
    }
    if oe.next != null {
      oe.next.prev := oe.prev;
    } else {
      lv.back := oe.prev;
    }
    assert forall j :: 0 <= j < |r| ==> r[j] == q[if j < i then j else j + 1];
    forall j | 0 <= j < |r| ensures LinkedAt(lv, r, j) {
      assert old(LinkedAt(lv, q, if j < i then j else j + 1));
    }
  }

  // Appends a new entry to the list.
  method LinkBack(lv: PriceLevel, oe: OrderEntry, ghost q: seq<OrderEntry>)
    requires Linked(lv, q) && oe !in q && oe.level == lv && oe.next == null && oe.prev == null
    modifies lv`front, lv`back, oe`prev, q`next
    ensures Linked(lv, q + [oe])
  {
    if lv.back == null {
      lv.front, lv.back := oe, oe;
    } else {
      oe.prev := lv.back;
      lv.back.next := oe;
      lv.back := oe;
    }
    forall i | 0 <= i < |q| ensures LinkedAt(lv, q + [oe], i) {
      assert old(LinkedAt(lv, q, i));
    }
  }

  // ---------- Level operations ----------

  // Everything a level knows about its orders.
  ghost predicate LevelHolds(lv: PriceLevel, q: seq<OrderEntry>, os: Book)
    reads lv`front, lv`back, lv`orderCount, lv`totalQuantity, q`next, q`prev, q`quantity, q`lastUpdate
  {
    Linked(lv, q) && Valued(lv, q, os)
  }

  method TakeOut(oe: OrderEntry, ghost q: seq<OrderEntry>, ghost os: Book, ghost i: nat)
    requires i < |q| && q[i] == oe && LevelHolds(oe.level, q, os)
    modifies oe.level`front, oe.level`back, oe.level`orderCount, oe.level`totalQuantity, q`next, q`prev
    ensures LevelHolds(oe.level, Without(q, i), Without(os, i))
  {
    hide Linked, Total;
    var lv := oe.level;
    TotalWithout(os, i);
    lv.totalQuantity := lv.totalQuantity - oe.quantity;
    UnlinkOrder(oe, q, i);
    lv.orderCount := lv.orderCount - 1;
    ghost var r, rs := Without(q, i), Without(os, i);
    forall j | 0 <= j < |r| ensures EntryIs(r[j], rs[j]) {
      var k := if j < i then j else j + 1;
      assert r[j] == q[k] && rs[j] == os[k];
    }
  }

  method PutBack(lv: PriceLevel, oe: OrderEntry, ghost q: seq<OrderEntry>, ghost os: Book, ghost o: Order)
    requires LevelHolds(lv, q, os) && oe !in q && oe.level == lv && oe.next == null && oe.prev == null && EntryIs(oe, o)
    modifies lv`front, lv`back, lv`orderCount, lv`totalQuantity, oe`prev, q`next
    ensures LevelHolds(lv, q + [oe], os + [o])
  {
    LinkBack(lv, oe, q);
    TotalPush(os, o);
    lv.orderCount := lv.orderCount + 1;
    lv.totalQuantity := lv.totalQuantity + oe.quantity;
  }

  method Resize(oe: OrderEntry, remaining: u32, time: i64, ghost q: seq<OrderEntry>, ghost os: Book, ghost i: nat)
    requires i < |q| && q[i] == oe && LevelHolds(oe.level, q, os)
    modifies oe.level`totalQuantity, oe`quantity, oe`lastUpdate
    ensures LevelHolds(oe.level, q, os[i := os[i].(quantity := remaining, lastUpdate := time)])
  {
    var lv := oe.level;
    TotalUpdate(os, i, os[i].(quantity := remaining, lastUpdate := time));
    var delta := oe.quantity - remaining;
    lv.totalQuantity := lv.totalQuantity - delta;
    oe.quantity := remaining;
    oe.lastUpdate := time;
  }
}
