// Exactly when the price-map books show what the limit order book shows, now and later.
module BookBehaviour {
  import opened MarketData
  import opened BookSpec
  import opened MapBook
  import opened BookAgreement
  import opened Sequences

  // ---------- Continuations ----------

  function After(b: Book, es: seq<Event>): Book
    decreases |es|
  {
    if es == [] then b else After(Apply(b, es[0]), es[1..])
  }

  function MapAfter(s: State, es: seq<Event>, replaceLive: bool): State
    decreases |es|
  {
    if es == [] then s else MapAfter(Step(s, es[0], replaceLive), es[1..], replaceLive)
  }

  // Every event of es is one the map book can follow, at the time it comes.
  predicate FollowingFrom(b: Book, es: seq<Event>, replaceLive: bool)
    decreases |es|
  {
    es == [] || (Follows(b, es[0], replaceLive) && FollowingFrom(Apply(b, es[0]), es[1..], replaceLive))
  }

  // The books show the same, and go on showing the same over events they can follow.
  ghost predicate Lasting(b: Book, s: State, replaceLive: bool) {
    forall es :: FollowingFrom(b, es, replaceLive) ==> Shows(After(b, es), MapAfter(s, es, replaceLive))
  }

  lemma {:induction false} InStepAfter(b: Book, s: State, es: seq<Event>, replaceLive: bool)
    requires InStep(b, s) && FollowingFrom(b, es, replaceLive)
    ensures InStep(After(b, es), MapAfter(s, es, replaceLive))
    decreases |es|
  {
    if es != [] {
      hide InStep, Follows;
      FollowsInStep(b, s, es[0], replaceLive);
      InStepAfter(Apply(b, es[0]), Step(s, es[0], replaceLive), es[1..], replaceLive);
    }
  }

  lemma InStepLasts(b: Book, s: State, replaceLive: bool)
    requires InStep(b, s)
    ensures Lasting(b, s, replaceLive)
  {
    forall es | FollowingFrom(b, es, replaceLive)
      ensures Shows(After(b, es), MapAfter(s, es, replaceLive))
    {
      InStepAfter(b, s, es, replaceLive);
    }
  }

  // ---------- Volumes ----------

  function BookTotal(b: Book, side: Side, p: i64): nat {
    Total(Level(b, side, p))
  }

  function MapTotal(s: State, side: Side, p: i64): int {
    if p in SideOfMap(s, side) then SideOfMap(s, side)[p] else 0
  }

  lemma ShownTotal(b: Book, s: State, side: Side, p: i64)
    requires Shows(b, s) && side != NoSide
    ensures MapTotal(s, side, p) == BookTotal(b, side, p)
    ensures p in SideOfMap(s, side) <==> Level(b, side, p) != []
  {
    LevelAgreesAt(b, s, side, p);
  }

  // A level that holds an order of some size shows a volume.
  lemma OrderShown(b: Book, i: nat)
    requires i < |b|
    ensures Level(b, b[i].side, b[i].price) != [] && BookTotal(b, b[i].side, b[i].price) >= b[i].quantity
  {
    LevelWithout(b, i, b[i].side, b[i].price);
    TotalWithout(Level(b, b[i].side, b[i].price), Rank(b, i, b[i].side, b[i].price));
  }

  lemma WithoutTotal(b: Book, i: nat, side: Side, p: i64)
    requires i < |b|
    ensures BookTotal(Without(b, i), side, p) ==
      BookTotal(b, side, p) - if b[i].side == side && b[i].price == p then b[i].quantity else 0
  {
    LevelWithout(b, i, side, p);
    hide Level;
    if b[i].side == side && b[i].price == p {
      TotalWithout(Level(b, side, p), Rank(b, i, side, p));
    }
  }

  lemma PushTotal(b: Book, o: Order, side: Side, p: i64)
    ensures BookTotal(b + [o], side, p) ==
      BookTotal(b, side, p) + if o.side == side && o.price == p then o.quantity else 0
  {
    LevelPush(b, o, side, p);
    hide Level;
    if o.side == side && o.price == p {
      TotalPush(Level(b, side, p), o);
    } else {
      assert Level(b, side, p) + [] == Level(b, side, p);
    }
  }

  lemma UpdateTotal(b: Book, i: nat, o: Order, side: Side, p: i64)
    requires i < |b| && o.side == b[i].side && o.price == b[i].price
    ensures BookTotal(b[i := o], side, p) ==
      BookTotal(b, side, p) + if o.side == side && o.price == p then o.quantity - b[i].quantity else 0
  {
    LevelUpdate(b, i, o, side, p);
    hide Level;
    if o.side == side && o.price == p {
      TotalUpdate(Level(b, side, p), Rank(b, i, side, p), o);
    }
  }

  lemma InsertTotal(s: State, id: u64, r: Record, side: Side, p: i64)
    requires side != NoSide && r.side != NoSide
    ensures MapTotal(Insert(s, id, r), side, p) ==
      MapTotal(s, side, p) + if r.side == side && r.price == p then r.size else 0
  {
  }

  // Taking no more off a level than it holds.
  lemma RemoveTotal(s: State, id: u64, delta: int, side: Side, p: i64)
    requires id in s.index && side != NoSide && s.index[id].side != NoSide
    requires 0 <= delta <= MapTotal(s, s.index[id].side, s.index[id].price)
    ensures var r := s.index[id];
      MapTotal(RemoveFromLevel(s, r.side, r.price, delta), side, p) ==
        MapTotal(s, side, p) - if r.side == side && r.price == p then delta else 0
  {
  }

  // ---------- The sizes and events of the proof ----------

  function Silent(action: Action, id: u64, size: u32): Event {
    Event(0, 0, id, UNDEF_PRICE, 0, size, NoSide, 0, action)
  }

  lemma DifferentTotals(b: Book, s: State, side: Side, p: i64)
    requires side != NoSide && MapTotal(s, side, p) != BookTotal(b, side, p)
    ensures !Shows(b, s)
  {
    if Shows(b, s) {
      ShownTotal(b, s, side, p);
    }
  }

  lemma OneMore(b: Book, s: State, e: Event, replaceLive: bool)
    requires Follows(b, e, replaceLive)
    ensures FollowingFrom(b, [e], replaceLive)
    ensures After(b, [e]) == Apply(b, e) && MapAfter(s, [e], replaceLive) == Step(s, e, replaceLive)
  {
    assert [e][1..] == [];
  }

  lemma EvictedTotal(b: Book, s: State, id: u64, side: Side, p: i64)
    requires InStep(b, s) && Live(b, id) && side != NoSide
    ensures var o := b[IndexOf(b, id)];
      MapTotal(Evicted(s, id), side, p) ==
      MapTotal(s, side, p) - if o.side == side && o.price == p then o.quantity else 0
  {
    var i := IndexOf(b, id);
    LiveIndexed(b, s, id);
    OrderShown(b, i);
    ShownTotal(b, s, b[i].side, b[i].price);
    hide InStep, BookTotal, Level, Shows;
    RemoveTotal(s, id, b[i].quantity, side, p);
  }

  // ---------- An order of no size ----------

  // The books show the same and hold the same orders, but the order with this id is empty.
  ghost predicate Near(b: Book, s: State, id: u64) {
    && WellFormed(b) && IndexAgrees(b, s.index) && Shows(b, s)
    && Live(b, id) && b[IndexOf(b, id)].quantity == 0
    && forall j :: 0 <= j < |b| && b[j].id != id ==> b[j].quantity > 0
  }

  lemma ZeroAdded(b: Book, s: State, o: Order)
    requires InStep(b, s) && o.quantity == 0 && o.side != NoSide && o.price != UNDEF_PRICE
    ensures Near(Drop(b, o.id) + [o], Insert(Evicted(s, o.id), o.id, RecordOf(o)), o.id)
  {
    hide InStep, Drop, Near;
    RemovedInStep(b, s, o.id);
    ZeroPushed(Drop(b, o.id), Removed(s, o.id), o);
    assert (s.index - {o.id})[o.id := RecordOf(o)] == s.index[o.id := RecordOf(o)];
    assert Evicted(s, o.id).index == s.index;
  }

  lemma ZeroPushed(c: Book, t: State, o: Order)
    requires InStep(c, t) && o.id !in t.index && o.quantity == 0 && o.side != NoSide && o.price != UNDEF_PRICE
    ensures Near(c + [o], Insert(t, o.id, RecordOf(o)), o.id)
  {
    assert forall j :: 0 <= j < |c| ==> c[j].id in t.index;
    assert WellFormed(c + [o]);
    PushIndex(c, t.index, o);
    PushAgrees(c, Buy, t.bids, o);
    PushAgrees(c, Sell, t.asks, o);
    assert (c + [o])[|c|] == o;
    Found(c + [o], o.id, |c|);
    hide SideAgrees, IndexAgrees, WellFormed;
  }

  // An order's position is found by its id.
  lemma IndexAt(b: Book, j: nat)
    requires WellFormed(b) && j < |b|
    ensures IndexOf(b, b[j].id) == j
  {
    Found(b, b[j].id, j);
  }

  // Alone on its level, the empty order leaves the level behind in the map when it goes.
  lemma ZeroAlone(b: Book, s: State, id: u64, replaceLive: bool)
    requires Near(b, s, id)
    requires var o := b[IndexOf(b, id)]; Level(Without(b, IndexOf(b, id)), o.side, o.price) == []
    ensures Follows(b, Silent(Cancel, id, 0), replaceLive)
    ensures !Shows(Apply(b, Silent(Cancel, id, 0)), Step(s, Silent(Cancel, id, 0), replaceLive))
  {
    var i, e := IndexOf(b, id), Silent(Cancel, id, 0);
    assert s.index[id] == RecordOf(b[i]) by { assert b[i].id in s.index; }
    assert Step(s, e, replaceLive) == s.(index := s.index - {id});
    LevelLeftBehind(b, s, i, s.(index := s.index - {id}));
    hide Shows, Step, WellFormed, IndexAgrees;
  }

  lemma LevelLeftBehind(b: Book, s: State, i: nat, s': State)
    requires Shows(b, s) && i < |b| && b[i].side != NoSide && s'.bids == s.bids && s'.asks == s.asks
    requires Level(Without(b, i), b[i].side, b[i].price) == []
    ensures !Shows(Without(b, i), s')
  {
    OrderShown(b, i);
    ShownTotal(b, s, b[i].side, b[i].price);
    if Shows(Without(b, i), s') {
      ShownTotal(Without(b, i), s', b[i].side, b[i].price);
    }
  }

  // Another order of the level goes: the empty order stays near, or the map has lost the level.
  lemma OtherCancelled(b: Book, s: State, id: u64, j: nat, replaceLive: bool)
    requires Near(b, s, id) && j < |b| && b[j].id != id
    requires b[j].side == b[IndexOf(b, id)].side && b[j].price == b[IndexOf(b, id)].price
    ensures var e := Silent(Cancel, b[j].id, 0);
      Follows(b, e, replaceLive) && Apply(b, e) == Without(b, j)
      && (Near(Without(b, j), Step(s, e, replaceLive), id) || !Shows(Without(b, j), Step(s, e, replaceLive)))
  {
    var s' := WithoutOrder(s, b[j]);
    OtherGone(b, s, id, j, replaceLive);
    StillThere(b, id, j);
    assert Shows(b, s) && b[j].side != NoSide;
    hide Near, Shows, WellFormed, WithoutOrder, Step, Follows, Apply, Silent, IndexAgrees, Level, BookTotal, Without;
    if BookTotal(Without(b, j), b[j].side, b[j].price) == 0 {
      OrderShown(Without(b, j), IndexOf(Without(b, j), id));
      LevelErased(b, s, j);
      if Shows(Without(b, j), s') {
        ShownTotal(Without(b, j), s', b[j].side, b[j].price);
      }
    } else {
      NearKept(b, s, id, j);
    }
  }

  lemma OtherGone(b: Book, s: State, id: u64, j: nat, replaceLive: bool)
    requires Near(b, s, id) && j < |b| && b[j].id != id
    ensures var e := Silent(Cancel, b[j].id, 0);
      Follows(b, e, replaceLive) && Apply(b, e) == Without(b, j) && Step(s, e, replaceLive) == WithoutOrder(s, b[j])
  {
    IndexAt(b, j);
    assert s.index[b[j].id] == RecordOf(b[j]) by { assert b[j].id in s.index; }
    hide Shows, Without;
  }

  function WithoutOrder(s: State, o: Order): State {
    RemoveFromLevel(s, o.side, o.price, o.quantity).(index := s.index - {o.id})
  }

  // The last volume of a level takes the level with it, in the map.
  lemma LevelErased(b: Book, s: State, j: nat)
    requires Shows(b, s) && j < |b| && b[j].side != NoSide
    requires BookTotal(Without(b, j), b[j].side, b[j].price) == 0
    ensures b[j].price !in SideOfMap(WithoutOrder(s, b[j]), b[j].side)
  {
    ShownTotal(b, s, b[j].side, b[j].price);
    WithoutTotal(b, j, b[j].side, b[j].price);
    hide BookTotal, Shows;
  }

  lemma NearKept(b: Book, s: State, id: u64, j: nat)
    requires Near(b, s, id) && j < |b| && b[j].id != id
    requires BookTotal(Without(b, j), b[j].side, b[j].price) != 0
    ensures Near(Without(b, j), WithoutOrder(s, b[j]), id)
  {
    var c := Without(b, j);
    StillThere(b, id, j);
    WithoutWellFormed(b, j);
    PullIndex(b, s.index, j);
    PullSide(b, Buy, s.bids, j);
    PullSide(b, Sell, s.asks, j);
    forall k | 0 <= k < |c| && c[k].id != id ensures c[k].quantity > 0 {
      WithoutAt(b, j, k);
    }
    hide SideAgrees, IndexAgrees, WellFormed, BookTotal;
  }

  lemma PullSide(b: Book, side: Side, m: Totals, j: nat)
    requires SideAgrees(b, side, m) && j < |b|
    requires BookTotal(Without(b, j), b[j].side, b[j].price) != 0
    ensures SideAgrees(Without(b, j), side, Pull(m, side, b[j]))
  {
    forall p: i64 ensures LevelAgrees(Level(Without(b, j), side, p), Pull(m, side, b[j]), p) {
      assert LevelAgrees(Level(b, side, p), m, p);
      PullLevelIf(b, side, m, j, p);
    }
  }

  lemma StillThere(b: Book, id: u64, j: nat)
    requires WellFormed(b) && Live(b, id) && j < |b| && b[j].id != id
    ensures Live(Without(b, j), id) && Without(b, j)[IndexOf(Without(b, j), id)] == b[IndexOf(b, id)]
  {
    var i, c := IndexOf(b, id), Without(b, j);
    var k := if i < j then i else i - 1;
    WithoutAt(b, j, k);
    WithoutWellFormed(b, j);
    IndexAt(c, k);
  }

  lemma Continued(b: Book, s: State, e: Event, es: seq<Event>, replaceLive: bool)
    requires Follows(b, e, replaceLive) && FollowingFrom(Apply(b, e), es, replaceLive)
    ensures FollowingFrom(b, [e] + es, replaceLive) && After(b, [e] + es) == After(Apply(b, e), es)
    ensures MapAfter(s, [e] + es, replaceLive) == MapAfter(Step(s, e, replaceLive), es, replaceLive)
  {
    assert ([e] + es)[1..] == es;
  }

  // The books part over es.
  ghost predicate Parts(b: Book, s: State, es: seq<Event>, replaceLive: bool) {
    FollowingFrom(b, es, replaceLive) && !Shows(After(b, es), MapAfter(s, es, replaceLive))
  }

  // Cancelling the other orders of its level one by one, and then the empty order itself,
  // brings the difference out.
  lemma {:induction false} ZeroParts(b: Book, s: State, id: u64, replaceLive: bool) returns (es: seq<Event>)
    requires Near(b, s, id)
    ensures Parts(b, s, es, replaceLive)
    decreases |b|
  {
    var i := IndexOf(b, id);
    if j: nat :| j < |b| && j != i && b[j].side == b[i].side && b[j].price == b[i].price {
      var e := Silent(Cancel, b[j].id, 0);
      assert b[j].id != id;
      OtherCancelled(b, s, id, j, replaceLive);
      if Near(Without(b, j), Step(s, e, replaceLive), id) {
        var rest := ZeroParts(Without(b, j), Step(s, e, replaceLive), id, replaceLive);
        es := [e] + rest;
        Continued(b, s, e, rest, replaceLive);
      } else {
        es := [e];
        OneMore(b, s, e, replaceLive);
      }
    } else {
      es := [Silent(Cancel, id, 0)];
      AloneOnLevel(b, i);
      ZeroAlone(b, s, id, replaceLive);
      OneMore(b, s, es[0], replaceLive);
    }
  }

  lemma AloneOnLevel(b: Book, i: nat)
    requires i < |b|
    requires forall j :: 0 <= j < |b| && j != i ==> b[j].side != b[i].side || b[j].price != b[i].price
    ensures Level(Without(b, i), b[i].side, b[i].price) == []
  {
    if Level(Without(b, i), b[i].side, b[i].price) != [] {
      var k := LevelMember(Without(b, i), b[i].side, b[i].price, 0);
      WithoutAt(b, i, k);
    }
  }

  // ---------- A record without its order ----------

  // The map book has an empty record for an order the limit book does not have, on a level
  // that both show: giving it a size brings the difference out.
  lemma GhostParts(b: Book, s: State, id: u64, replaceLive: bool) returns (es: seq<Event>)
    requires Shows(b, s) && !Live(b, id) && id in s.index && s.index[id].size == 0
    requires var r := s.index[id]; r.side != NoSide && MapTotal(s, r.side, r.price) > 0
    ensures Parts(b, s, es, replaceLive)
  {
    var r, e := s.index[id], Silent(Modify, id, 1);
    es := [e];
    assert Follows(b, e, replaceLive) && Apply(b, e) == b;
    OneMore(b, s, e, replaceLive);
    RemoveTotal(s, id, 0, r.side, r.price);
    var s1 := Evicted(s, id);
    InsertTotal(s1, id, Record(r.side, r.price, 1), r.side, r.price);
    assert Step(s, e, replaceLive) == Insert(s1, id, Record(r.side, r.price, 1));
    ShownTotal(b, s, r.side, r.price);
    DifferentTotals(b, Step(s, e, replaceLive), r.side, r.price);
  }

  // ---------- Every other way of parting ----------

  lemma LevelHasVolume(b: Book, side: Side, p: i64)
    requires Positive(b) && Level(b, side, p) != []
    ensures BookTotal(b, side, p) > 0
  {
    LevelPositive(b, side, p);
    TotalPositive(Level(b, side, p));
  }

  // Taking in an empty record shows nothing, unless it opens a level.
  lemma EmptyRecord(b: Book, s: State, id: u64, r: Record)
    requires Shows(b, s) && r.side != NoSide && r.size == 0
    ensures r.price in SideOfMap(s, r.side) ==> Insert(s, id, r) == s.(index := s.index[id := r])
    ensures r.price !in SideOfMap(s, r.side) ==> !Shows(b, Insert(s, id, r))
  {
    var s' := Insert(s, id, r);
    ShownTotal(b, s, r.side, r.price);
    if r.price in SideOfMap(s, r.side) {
      assert s'.bids == s.bids && s'.asks == s.asks;
    } else if Shows(b, s') {
      ShownTotal(b, s', r.side, r.price);
    }
  }

  // The map book takes in an order that the limit book does not have.
  lemma StrangerParts(b: Book, s: State, id: u64, r: Record, replaceLive: bool) returns (es: seq<Event>)
    requires InStep(b, s) && !Live(b, id) && r.side != NoSide
    ensures Parts(b, Insert(s, id, r), es, replaceLive)
  {
    var s' := Insert(s, id, r);
    es := [];
    InsertTotal(s, id, r, r.side, r.price);
    ShownTotal(b, s, r.side, r.price);
    if r.size > 0 {
      DifferentTotals(b, s', r.side, r.price);
    } else {
      EmptyRecord(b, s, id, r);
      if Shows(b, s') {
        LevelHasVolume(b, r.side, r.price);
        es := GhostParts(b, s', id, replaceLive);
      }
    }
  }

  // The map book changes the record of an order that the limit book leaves alone.
  lemma ChangedParts(b: Book, s: State, id: u64, r: Record, replaceLive: bool)
    requires InStep(b, s) && Live(b, id) && r.side != NoSide && r != RecordOf(b[IndexOf(b, id)])
    ensures Parts(b, Insert(Evicted(s, id), id, r), [], replaceLive)
  {
    var o, s' := b[IndexOf(b, id)], Insert(Evicted(s, id), id, r);
    LiveIndexed(b, s, id);
    EvictedTotal(b, s, id, o.side, o.price);
    InsertTotal(Evicted(s, id), id, r, o.side, o.price);
    ShownTotal(b, s, o.side, o.price);
    DifferentTotals(b, s', o.side, o.price);
  }

  lemma VolumeAdded(b: Book, s: State, id: u64, r: Record, replaceLive: bool)
    requires Shows(b, s) && r.side != NoSide && r.size > 0
    ensures Parts(b, Insert(s, id, r), [], replaceLive)
  {
    InsertTotal(s, id, r, r.side, r.price);
    ShownTotal(b, s, r.side, r.price);
    DifferentTotals(b, Insert(s, id, r), r.side, r.price);
  }

  // The map book takes in a live order a second time, and the limit book leaves it alone.
  lemma DoubledParts(b: Book, s: State, id: u64, r: Record, replaceLive: bool) returns (es: seq<Event>)
    requires InStep(b, s) && Live(b, id) && r.side != NoSide
    ensures Parts(b, Insert(s, id, r), es, replaceLive)
  {
    es := [];
    if r.size > 0 {
      VolumeAdded(b, s, id, r, replaceLive);
    } else {
      EmptyRecord(b, s, id, r);
      hide InStep, Insert, SideOfMap, Live, Shows, FollowingFrom, After, MapAfter;
      if Shows(b, Insert(s, id, r)) {
        es := [Silent(Cancel, id, 0)];
        EmptyTwin(b, s, id, r, replaceLive);
      }
    }
  }

  lemma EmptyTwin(b: Book, s: State, id: u64, r: Record, replaceLive: bool)
    requires InStep(b, s) && Live(b, id) && r.size == 0
    ensures Parts(b, s.(index := s.index[id := r]), [Silent(Cancel, id, 0)], replaceLive)
  {
    var i, e, s' := IndexOf(b, id), Silent(Cancel, id, 0), s.(index := s.index[id := r]);
    var o := b[i];
    LiveIndexed(b, s, id);
    OneMore(b, s', e, replaceLive);
    WithoutTotal(b, i, o.side, o.price);
    ShownTotal(b, s, o.side, o.price);
    assert Step(s', e, replaceLive).bids == s.bids && Step(s', e, replaceLive).asks == s.asks;
    DifferentTotals(Without(b, i), Step(s', e, replaceLive), o.side, o.price);
  }

  // A flagged cancellation to another size than the order has.
  lemma FlaggedCancelParts(b: Book, s: State, e: Event, replaceLive: bool) returns (es: seq<Event>)
    requires InStep(b, s) && e.action == Cancel && Live(b, e.orderId) && b[IndexOf(b, e.orderId)].quantity != e.size
    ensures Parts(b, CancelIn(s, e), es, replaceLive)
  {
    var i, id := IndexOf(b, e.orderId), e.orderId;
    var o, s' := b[i], CancelIn(s, e);
    LiveIndexed(b, s, id);
    OrderShown(b, i);
    ShownTotal(b, s, o.side, o.price);
    es := [];
    if e.size < o.quantity {
      RemoveTotal(s, id, o.quantity - e.size, o.side, o.price);
      DifferentTotals(b, s', o.side, o.price);
    } else {
      es := [Silent(Cancel, id, o.quantity)];
      RaisedParts(b, s, id, e.size, replaceLive);
    }
  }

  // A record larger than its order: cancelling to the order's size changes only the map.
  lemma RaisedParts(b: Book, s: State, id: u64, size: u32, replaceLive: bool)
    requires InStep(b, s) && Live(b, id) && size > b[IndexOf(b, id)].quantity
    ensures var o := b[IndexOf(b, id)];
      Parts(b, s.(index := s.index[id := RecordOf(o).(size := size)]), [Silent(Cancel, id, o.quantity)], replaceLive)
  {
    var i := IndexOf(b, id);
    var o := b[i];
    var e, s' := Silent(Cancel, id, o.quantity), s.(index := s.index[id := RecordOf(o).(size := size)]);
    LiveIndexed(b, s, id);
    OrderShown(b, i);
    ShownTotal(b, s, o.side, o.price);
    ToOwnSize(b, id, replaceLive);
    OneMore(b, s', e, replaceLive);
    SameMaps(s', s, o.side, o.price);
    ReducedStep(s', id, o.quantity, replaceLive);
    hide InStep, Shows, BookTotal, MapTotal, Follows, IndexAgrees, Level, Step, RecordOf, Silent, Apply;
    DifferentTotals(Apply(b, e), Step(s', e, replaceLive), o.side, o.price);
  }

  lemma ReducedStep(s: State, id: u64, size: u32, replaceLive: bool)
    requires id in s.index && 0 < size < s.index[id].size && s.index[id].side != NoSide
    requires MapTotal(s, s.index[id].side, s.index[id].price) > 0
    ensures var r := s.index[id];
      MapTotal(Step(s, Silent(Cancel, id, size), replaceLive), r.side, r.price) < MapTotal(s, r.side, r.price)
  {
    var r := s.index[id];
    var less := RemoveFromLevel(s, r.side, r.price, r.size - size);
    OverRemoved(s, r.side, r.price, r.size - size);
    SameMaps(Step(s, Silent(Cancel, id, size), replaceLive), less, r.side, r.price);
  }

  lemma SameMaps(s: State, t: State, side: Side, p: i64)
    requires s.bids == t.bids && s.asks == t.asks
    ensures MapTotal(s, side, p) == MapTotal(t, side, p)
  {
  }

  lemma OverRemoved(s: State, side: Side, p: i64, delta: int)
    requires side != NoSide && delta > 0 && MapTotal(s, side, p) > 0
    ensures MapTotal(RemoveFromLevel(s, side, p, delta), side, p) < MapTotal(s, side, p)
  {
  }

  lemma ToOwnSize(b: Book, id: u64, replaceLive: bool)
    requires Live(b, id) && b[IndexOf(b, id)].quantity > 0
    ensures var o := b[IndexOf(b, id)];
      var e := Silent(Cancel, id, o.quantity);
      Follows(b, e, replaceLive) && BookTotal(Apply(b, e), o.side, o.price) == BookTotal(b, o.side, o.price)
  {
    var i := IndexOf(b, id);
    UpdateTotal(b, i, b[i].(lastUpdate := 0), b[i].side, b[i].price);
    hide BookTotal;
  }

  lemma ModifiedRecord(b: Book, s: State, e: Event)
    requires InStep(b, s) && Live(b, e.orderId)
    ensures ModifyIn(s, e) ==
      Insert(Evicted(s, e.orderId), e.orderId, RecordOf(NewOrder(Completed(b[IndexOf(b, e.orderId)], e))))
  {
    LiveIndexed(b, s, e.orderId);
    hide InStep, Insert, Evicted;
  }

  lemma FlaggedParts(b: Book, s: State, e: Event, replaceLive: bool) returns (es: seq<Event>)
    requires InStep(b, s) && e.Skipped() && !Follows(b, e, replaceLive)
    ensures Parts(b, Step(s, e, replaceLive), es, replaceLive)
  {
    hide InStep, Parts, Insert, Evicted, CancelIn;
    var id, i := e.orderId, IndexOf(b, e.orderId);
    LiveIndexed(b, s, id);
    es := [];
    match e.action
    case Clear =>
      ClearParts(b, s, replaceLive);
    case Cancel =>
      es := FlaggedCancelParts(b, s, e, replaceLive);
    case Add =>
      var r := Record(e.side, e.price, e.size);
      if i == |b| {
        NotLiveKeeps(s, id);
        es := StrangerParts(b, s, id, r, replaceLive);
      } else if replaceLive {
        ChangedParts(b, s, id, r, replaceLive);
      } else {
        es := DoubledParts(b, s, id, r, replaceLive);
      }
    case Modify =>
      if i == |b| {
        es := StrangerParts(b, s, id, Record(e.side, e.price, e.size), replaceLive);
      } else {
        ModifiedRecord(b, s, e);
        ChangedParts(b, s, id, RecordOf(NewOrder(Completed(b[i], e))), replaceLive);
      }
  }

  lemma ClearParts(b: Book, s: State, replaceLive: bool)
    requires InStep(b, s) && b != []
    ensures Parts(b, EMPTY, [], replaceLive)
  {
    OrderShown(b, 0);
    if Shows(b, EMPTY) {
      ShownTotal(b, EMPTY, b[0].side, b[0].price);
    }
  }

  // ---------- Unflagged events ----------

  // A live order added again by a book that does not replace it: its old size stays.
  lemma ReusedParts(b: Book, s: State, o: Order, replaceLive: bool)
    requires InStep(b, s) && Live(b, o.id) && o.side != NoSide
    ensures Parts(Drop(b, o.id) + [o], Insert(s, o.id, RecordOf(o)), [], replaceLive)
  {
    var i := IndexOf(b, o.id);
    var was := b[i];
    LiveIndexed(b, s, o.id);
    assert Drop(b, o.id) == Without(b, i) && Shows(b, s);
    hide InStep, Shows, BookTotal, MapTotal, Without, Drop, Insert, SideOfMap;
    WithoutTotal(b, i, was.side, was.price);
    PushTotal(Without(b, i), o, was.side, was.price);
    InsertTotal(s, o.id, RecordOf(o), was.side, was.price);
    ShownTotal(b, s, was.side, was.price);
    DifferentTotals(Drop(b, o.id) + [o], Insert(s, o.id, RecordOf(o)), was.side, was.price);
  }

  lemma RaisingParts(b: Book, s: State, e: Event, replaceLive: bool)
    requires InStep(b, s) && Live(b, e.orderId) && e.size > b[IndexOf(b, e.orderId)].quantity
    ensures Parts(BookSpec.CancelOrder(b, e), CancelIn(s, e), [], replaceLive)
  {
    var i := IndexOf(b, e.orderId);
    var o := b[i];
    LiveIndexed(b, s, e.orderId);
    assert Shows(b, s) && CancelIn(s, e).bids == s.bids && CancelIn(s, e).asks == s.asks;
    hide InStep, Shows, BookTotal, MapTotal, CancelIn, SideOfMap;
    ShownTotal(b, s, o.side, o.price);
    UpdateTotal(b, i, o.(quantity := e.size, lastUpdate := e.tsEvent), o.side, o.price);
    SameMaps(CancelIn(s, e), s, o.side, o.price);
    DifferentTotals(BookSpec.CancelOrder(b, e), CancelIn(s, e), o.side, o.price);
  }

  // A modification in place to nothing: the limit book drops the order, the map book keeps
  // an empty record.
  lemma EmptiedParts(b: Book, s: State, id: u64, replaceLive: bool) returns (es: seq<Event>)
    requires InStep(b, s) && Live(b, id)
    ensures var i := IndexOf(b, id);
      Parts(Without(b, i), Insert(Evicted(s, id), id, RecordOf(b[i]).(size := 0)), es, replaceLive)
  {
    var i, r := IndexOf(b, id), RecordOf(b[IndexOf(b, id)]).(size := 0);
    LiveIndexed(b, s, id);
    assert WellFormed(b) && r.side != NoSide && b[i].id == id && Drop(b, id) == Without(b, i);
    assert Removed(s, id).index == s.index - {id};
    hide *;
    RemovedInStep(b, s, id);
    Gone(b, i);
    assert (s.index - {id})[id := r] == s.index[id := r];
    SameInsert(s, id, r);
    es := StrangerParts(Without(b, i), Removed(s, id), id, r, replaceLive);
  }

  lemma SameInsert(s: State, id: u64, r: Record)
    requires (s.index - {id})[id := r] == s.index[id := r]
    ensures Insert(Evicted(s, id), id, r) == Insert(Removed(s, id), id, r)
  {
  }

  lemma Gone(b: Book, i: nat)
    requires WellFormed(b) && i < |b|
    ensures !Live(Without(b, i), b[i].id)
  {
    WithoutWellFormed(b, i);
  }

  lemma UnflaggedParts(b: Book, s: State, e: Event, replaceLive: bool) returns (es: seq<Event>)
    requires InStep(b, s) && !e.Skipped() && !Follows(b, e, replaceLive)
    ensures Parts(Apply(b, e), Step(s, e, replaceLive), es, replaceLive)
  {
    hide InStep, Parts, Insert, Evicted, CancelIn, Near, Drop, WellFormed;
    var id, i := e.orderId, IndexOf(b, e.orderId);
    LiveIndexed(b, s, id);
    es := [];
    match e.action
    case Cancel =>
      RaisingParts(b, s, e, replaceLive);
    case Add =>
      if i < |b| && !replaceLive {
        ReusedParts(b, s, NewOrder(e), replaceLive);
      } else {
        ZeroAdded(b, s, NewOrder(e));
        NotLiveKeeps(s, id);
        es := ZeroParts(Apply(b, e), Step(s, e, replaceLive), id, replaceLive);
      }
    case Modify =>
      if i < |b| && !Moves(b[i], e) {
        ModifiedRecord(b, s, e);
        es := EmptiedParts(b, s, id, replaceLive);
      } else if i < |b| {
        ModifiedRecord(b, s, e);
        ZeroAdded(b, s, NewOrder(Completed(b[i], e)));
        es := ZeroParts(Apply(b, e), Step(s, e, replaceLive), id, replaceLive);
      } else {
        ZeroAdded(b, s, NewOrder(e));
        NotLiveKeeps(s, id);
        es := ZeroParts(Apply(b, e), Step(s, e, replaceLive), id, replaceLive);
      }
  }

  lemma NotLiveKeeps(s: State, id: u64)
    ensures id !in s.index ==> Evicted(s, id) == s
  {
  }

  // ---------- The exact law ----------

  // From books in step, one event leads to books that show the same, and go on doing so over
  // everything that can be followed, exactly when the event can be followed.
  lemma EventExact(b: Book, s: State, e: Event, replaceLive: bool)
    requires InStep(b, s)
    ensures Lasting(Apply(b, e), Step(s, e, replaceLive), replaceLive) <==> Follows(b, e, replaceLive)
  {
    hide InStep, Follows;
    if Follows(b, e, replaceLive) {
      FollowsInStep(b, s, e, replaceLive);
      InStepLasts(Apply(b, e), Step(s, e, replaceLive), replaceLive);
    } else {
      var es: seq<Event>;
      if e.Skipped() {
        es := FlaggedParts(b, s, e, replaceLive);
      } else {
        es := UnflaggedParts(b, s, e, replaceLive);
      }
      assert Parts(Apply(b, e), Step(s, e, replaceLive), es, replaceLive);
    }
  }

  // Being in step is kept exactly by the same events.
  lemma InStepExact(b: Book, s: State, e: Event, replaceLive: bool)
    requires InStep(b, s)
    ensures InStep(Apply(b, e), Step(s, e, replaceLive)) <==> Follows(b, e, replaceLive)
  {
    hide InStep, Follows, Lasting;
    EventExact(b, s, e, replaceLive);
    if InStep(Apply(b, e), Step(s, e, replaceLive)) {
      InStepLasts(Apply(b, e), Step(s, e, replaceLive), replaceLive);
    }
    if Follows(b, e, replaceLive) {
      FollowsInStep(b, s, e, replaceLive);
    }
  }

  // ---------- Whole streams ----------

  ghost predicate FollowingStream(es: seq<Event>, replaceLive: bool) {
    forall k :: 0 <= k < |es| ==> Follows(Run(es[..k]), es[k], replaceLive)
  }

  // After every prefix of the stream the books show the same, and would over any events
  // that can be followed from there.
  ghost predicate AlwaysLasting(es: seq<Event>, replaceLive: bool) {
    forall k :: 0 <= k <= |es| ==> Lasting(Run(es[..k]), RunMap(es[..k], replaceLive), replaceLive)
  }

  lemma PrefixRuns(es: seq<Event>, k: nat, replaceLive: bool)
    requires k < |es|
    ensures Run(es[..k + 1]) == Apply(Run(es[..k]), es[k])
    ensures RunMap(es[..k + 1], replaceLive) == Step(RunMap(es[..k], replaceLive), es[k], replaceLive)
  {
    assert es[..k + 1][..k] == es[..k];
  }

  lemma {:induction false} InStepUpTo(es: seq<Event>, k: nat, replaceLive: bool)
    requires k <= |es| && forall j :: 0 <= j < k ==> Follows(Run(es[..j]), es[j], replaceLive)
    ensures InStep(Run(es[..k]), RunMap(es[..k], replaceLive))
  {
    if k == 0 {
      EmptyInStep();
    } else {
      InStepUpTo(es, k - 1, replaceLive);
      PrefixRuns(es, k - 1, replaceLive);
      hide InStep, Follows, Run, RunMap;
      FollowsInStep(Run(es[..k - 1]), RunMap(es[..k - 1], replaceLive), es[k - 1], replaceLive);
    }
  }

  lemma LastingStep(es: seq<Event>, k: nat, replaceLive: bool)
    requires k < |es| && InStep(Run(es[..k]), RunMap(es[..k], replaceLive))
    requires Lasting(Run(es[..k + 1]), RunMap(es[..k + 1], replaceLive), replaceLive)
    ensures Follows(Run(es[..k]), es[k], replaceLive)
  {
    hide Lasting, InStep, Follows, Run, RunMap;
    PrefixRuns(es, k, replaceLive);
    EventExact(Run(es[..k]), RunMap(es[..k], replaceLive), es[k], replaceLive);
  }

  lemma {:induction false} LastingFollows(es: seq<Event>, k: nat, replaceLive: bool)
    requires k <= |es| && AlwaysLasting(es, replaceLive)
    ensures forall j :: 0 <= j < k ==> Follows(Run(es[..j]), es[j], replaceLive)
  {
    hide Lasting, InStep, Follows, Run, RunMap;
    if k > 0 {
      LastingFollows(es, k - 1, replaceLive);
      InStepUpTo(es, k - 1, replaceLive);
      LastingStep(es, k - 1, replaceLive);
    }
  }

  // A price-map book shows what the limit book shows, after every prefix of a stream and
  // whatever it may follow then, exactly when it can follow every event of the stream.
  lemma StreamExact(es: seq<Event>, replaceLive: bool)
    ensures AlwaysLasting(es, replaceLive) <==> FollowingStream(es, replaceLive)
  {
    hide Lasting, InStep, Follows, Run, RunMap;
    if AlwaysLasting(es, replaceLive) {
      LastingFollows(es, |es|, replaceLive);
    }
    if FollowingStream(es, replaceLive) {
      forall k | 0 <= k <= |es|
        ensures Lasting(Run(es[..k]), RunMap(es[..k], replaceLive), replaceLive)
      {
        InStepUpTo(es, k, replaceLive);
        InStepLasts(Run(es[..k]), RunMap(es[..k], replaceLive), replaceLive);
      }
    }
  }

  // The stream may stop being followable without the books parting yet: an order of no size
  // looks the same in both.
  lemma QuietDeparture(b: Book, s: State, e: Event)
    requires InStep(b, s) && !e.Skipped() && e.action == Add && Effective(e) && e.size == 0
    ensures Shows(Apply(b, e), Step(s, e, true)) && !Lasting(Apply(b, e), Step(s, e, true), true)
  {
    EventExact(b, s, e, true);
    ZeroAdded(b, s, NewOrder(e));
    hide InStep, Lasting, Insert, Evicted, Drop;
  }
}
