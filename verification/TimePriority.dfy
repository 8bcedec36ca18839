// Time priority: the reference book, and with it every level's list, is ordered
// by when its orders last joined their level.
module TimePriority {
  import opened MarketData
  import opened BookSpec
  import opened Sequences

  // The event names another side or another price than the order has.
  predicate AsksToMove(o: Order, e: Event) {
    (e.side != NoSide && e.side != o.side) || (e.price != UNDEF_PRICE && e.price != o.price)
  }

  // The event sends the order it names to the back of a level.
  predicate Joins(b: Book, e: Event) {
    e.flags & 4 == 0 && e.flags & 8 == 0 &&
    match e.action
    case Add => e.side != NoSide && e.price != UNDEF_PRICE
    case Modify =>
      if Live(b, e.orderId) then AsksToMove(b[IndexOf(b, e.orderId)], e)
      else e.side != NoSide && e.price != UNDEF_PRICE
    case _ => false
  }

  // The number of the last event that sent this order to the back; 0 if none did.
  function LastJoin(es: seq<Event>, id: u64): (n: nat)
    ensures n <= |es|
  {
    if es == [] then 0
    else
      var before, e := es[..|es| - 1], es[|es| - 1];
      if e.orderId == id && Joins(Run(before), e) then |es| else LastJoin(before, id)
  }

  predicate InJoinOrder(es: seq<Event>, b: Book) {
    forall i, j :: 0 <= i < j < |b| ==> LastJoin(es, b[i].id) < LastJoin(es, b[j].id)
  }

  // ---------- What one event does to the order of the book ----------

  // A joining event puts its order last and removes nothing else.
  lemma JoinGoesToBack(b: Book, e: Event)
    requires WellFormed(b) && Joins(b, e)
    ensures var o := Apply(b, e); o != [] && o[..|o| - 1] == Drop(b, e.orderId) && o[|o| - 1].id == e.orderId
    ensures forall i :: 0 <= i < |Drop(b, e.orderId)| ==> Drop(b, e.orderId)[i].id != e.orderId
  {
    hide WellFormed;
    var i := IndexOf(b, e.orderId);
    if i < |b| {
      WithoutWellFormed(b, i);
      assert b[i].side != NoSide && b[i].price != UNDEF_PRICE by { SideKnown(b, i); }
    }
  }

  lemma SideKnown(b: Book, i: nat)
    requires WellFormed(b) && i < |b|
    ensures b[i].side != NoSide && b[i].price != UNDEF_PRICE
  {
  }

  // An event that does not join leaves the book, clears it, removes one order,
  // or rewrites one where it stands.
  predicate Rests(b: Book, e: Event) {
    var o, i := Apply(b, e), IndexOf(b, e.orderId);
    o == b || (e.action == Clear && o == []) || (i < |b| && o == Without(b, i)) ||
    (i < |b| && o == b[i := b[i].(quantity := e.size, lastUpdate := e.tsEvent)])
  }

  lemma RestsUnlessJoins(b: Book, e: Event)
    requires WellFormed(b) && !Joins(b, e)
    ensures Rests(b, e)
  {
  }

  // A cut in size, or a modification that keeps side and price, keeps the place
  // in the queue.
  lemma KeepsPlace(b: Book, e: Event)
    requires WellFormed(b) && Live(b, e.orderId) && e.flags & 4 == 0 && e.flags & 8 == 0 && e.size > 0
    requires e.action == Cancel || (e.action == Modify && !AsksToMove(b[IndexOf(b, e.orderId)], e))
    ensures var o, i := Apply(b, e), IndexOf(b, e.orderId);
      |o| == |b| && IndexOf(o, e.orderId) == i && o[i].quantity == e.size &&
      (forall j :: 0 <= j < |b| && j != i ==> o[j] == b[j]) &&
      Rank(o, i, o[i].side, o[i].price) == Rank(b, i, b[i].side, b[i].price)
  {
    var o, i := Apply(b, e), IndexOf(b, e.orderId);
    assert o[..i] == b[..i];
    SamePlace(b, o, e.orderId);
  }

  lemma {:induction false} SamePlace(b: Book, o: Book, id: u64)
    requires |o| == |b| && forall j :: 0 <= j < |b| ==> o[j].id == b[j].id
    ensures IndexOf(o, id) == IndexOf(b, id)
  {
    if b != [] && b[0].id != id {
      SamePlace(b[1..], o[1..], id);
    }
  }

  // ---------- What one event does to the orders it does not name ----------

  // The orders of b other than id, in order.
  function Others(b: Book, id: u64): Book {
    if b == [] then []
    else if b[0].id == id then Others(b[1..], id)
    else [b[0]] + Others(b[1..], id)
  }

  lemma {:induction false} OthersAppend(a: Book, b: Book, id: u64)
    ensures Others(a + b, id) == Others(a, id) + Others(b, id)
  {
    if a == [] {
      assert a + b == b;
    } else {
      assert (a + b)[0] == a[0] && (a + b)[1..] == a[1..] + b;
      OthersAppend(a[1..], b, id);
    }
  }

  lemma OthersSplit(b: Book, i: nat, id: u64)
    requires i < |b| && b[i].id == id
    ensures Others(b, id) == Others(b[..i], id) + Others(b[i + 1..], id)
  {
    assert b == b[..i] + [b[i]] + b[i + 1..];
    OthersAppend(b[..i] + [b[i]], b[i + 1..], id);
    OthersAppend(b[..i], [b[i]], id);
    assert Others([b[i]], id) == [];
  }

  lemma OthersWithout(b: Book, i: nat)
    requires i < |b|
    ensures Others(Without(b, i), b[i].id) == Others(b, b[i].id)
  {
    OthersSplit(b, i, b[i].id);
    OthersAppend(b[..i], b[i + 1..], b[i].id);
  }

  lemma OthersUpdate(b: Book, i: nat, o: Order)
    requires i < |b| && o.id == b[i].id
    ensures Others(b[i := o], o.id) == Others(b, o.id)
  {
    var c := b[i := o];
    assert c[..i] == b[..i] && c[i + 1..] == b[i + 1..];
    OthersSplit(b, i, o.id);
    OthersSplit(c, i, o.id);
  }

  // Whatever an event does, short of a clear, the orders it does not name stay
  // live, unchanged and in their order.
  lemma OthersStay(b: Book, e: Event)
    requires WellFormed(b)
    ensures Others(Apply(b, e), e.orderId) ==
      if e.action == Clear && e.flags & 4 == 0 && e.flags & 8 == 0 then [] else Others(b, e.orderId)
  {
    var i := IndexOf(b, e.orderId);
    if i < |b| {
      OthersWithout(b, i);
      OthersUpdate(b, i, b[i].(quantity := e.size, lastUpdate := e.tsEvent));
    }
    if Joins(b, e) {
      JoinGoesToBack(b, e);
      var o := Apply(b, e);
      assert o == o[..|o| - 1] + [o[|o| - 1]];
      OthersAppend(o[..|o| - 1], [o[|o| - 1]], e.orderId);
    } else {
      RestsUnlessJoins(b, e);
    }
  }

  // So two of them that are live after the event stand as they stood before.
  lemma OrderKept(b: Book, e: Event, x: u64, y: u64)
    requires WellFormed(b) && x != e.orderId && y != e.orderId && Live(Apply(b, e), x) && Live(Apply(b, e), y)
    ensures Live(b, x) && Live(b, y)
    ensures IndexOf(Apply(b, e), x) < IndexOf(Apply(b, e), y) <==> IndexOf(b, x) < IndexOf(b, y)
  {
    OthersStay(b, e);
    LiveInOthers(b, e.orderId, x);
    LiveInOthers(b, e.orderId, y);
    LiveInOthers(Apply(b, e), e.orderId, x);
    LiveInOthers(Apply(b, e), e.orderId, y);
    OrderInOthers(b, e.orderId, x, y);
    OrderInOthers(Apply(b, e), e.orderId, x, y);
  }

  lemma {:induction false} LiveInOthers(b: Book, id: u64, x: u64)
    requires x != id
    ensures Live(b, x) <==> Live(Others(b, id), x)
  {
    if b != [] {
      var r := b[1..];
      assert b == [b[0]] + r && Others(b, id) == if b[0].id == id then Others(r, id) else [b[0]] + Others(r, id);
      hide IndexOf, Others;
      LiveInOthers(r, id, x);
      IndexCons(b[0], r, x);
      IndexCons(b[0], Others(r, id), x);
    }
  }

  lemma {:induction false} OrderInOthers(b: Book, id: u64, x: u64, y: u64)
    requires x != id && y != id
    ensures IndexOf(b, x) < IndexOf(b, y) <==> IndexOf(Others(b, id), x) < IndexOf(Others(b, id), y)
  {
    if b != [] {
      var r := b[1..];
      assert b == [b[0]] + r && Others(b, id) == if b[0].id == id then Others(r, id) else [b[0]] + Others(r, id);
      hide IndexOf, Others;
      OrderInOthers(r, id, x, y);
      IndexCons(b[0], r, x);
      IndexCons(b[0], r, y);
      IndexCons(b[0], Others(r, id), x);
      IndexCons(b[0], Others(r, id), y);
    }
  }

  function IndexAfter(o: Order, b: Book, id: u64): nat {
    if o.id == id then 0 else 1 + IndexOf(b, id)
  }

  lemma IndexCons(o: Order, b: Book, id: u64)
    ensures IndexOf([o] + b, id) == IndexAfter(o, b, id)
  {
    assert ([o] + b)[1..] == b;
  }

  // ---------- Over whole runs ----------

  lemma {:induction false} RunInJoinOrder(es: seq<Event>)
    ensures InJoinOrder(es, Run(es))
  {
    if es == [] {
      return;
    }
    var before, e := es[..|es| - 1], es[|es| - 1];
    var b := Run(before);
    RunInJoinOrder(before);
    RunWellFormed(before);
    if Joins(b, e) {
      JoinGoesToBack(b, e);
      StepJoin(es, b, e);
    } else {
      RestsUnlessJoins(b, e);
      StepStay(es, b, e);
    }
  }

  lemma StepJoin(es: seq<Event>, b: Book, e: Event)
    requires es != [] && b == Run(es[..|es| - 1]) && e == es[|es| - 1] && InJoinOrder(es[..|es| - 1], b) && Joins(b, e)
    requires var o := Apply(b, e); o != [] && o[..|o| - 1] == Drop(b, e.orderId) && o[|o| - 1].id == e.orderId
    requires forall i :: 0 <= i < |Drop(b, e.orderId)| ==> Drop(b, e.orderId)[i].id != e.orderId
    ensures InJoinOrder(es, Apply(b, e))
  {
    hide Apply, Joins;
    var o, d, before := Apply(b, e), Drop(b, e.orderId), es[..|es| - 1];
    forall i, j | 0 <= i < j < |o| ensures LastJoin(es, o[i].id) < LastJoin(es, o[j].id) {
      assert o[i] == d[i] && LastJoin(es, d[i].id) == LastJoin(before, d[i].id);
      if j < |d| {
        assert o[j] == d[j];
        DropOrder(b, e.orderId, i, j);
      }
    }
  }

  // Dropping an order keeps the others in order.
  lemma DropOrder(b: Book, id: u64, i: nat, j: nat)
    requires i < j < |Drop(b, id)|
    ensures exists i', j' :: 0 <= i' < j' < |b| && Drop(b, id)[i] == b[i'] && Drop(b, id)[j] == b[j']
  {
    var k := IndexOf(b, id);
    if k < |b| {
      WithoutAt(b, k, i);
      WithoutAt(b, k, j);
      var i', j' := if i < k then i else i + 1, if j < k then j else j + 1;
      assert Drop(b, id)[i] == b[i'] && Drop(b, id)[j] == b[j'];
    } else {
      assert Drop(b, id)[i] == b[i] && Drop(b, id)[j] == b[j];
    }
  }

  lemma StepStay(es: seq<Event>, b: Book, e: Event)
    requires es != [] && b == Run(es[..|es| - 1]) && e == es[|es| - 1] && InJoinOrder(es[..|es| - 1], b)
    requires !Joins(b, e) && Rests(b, e)
    ensures InJoinOrder(es, Apply(b, e))
  {
    hide Apply, Joins;
    var o, k := Apply(b, e), IndexOf(b, e.orderId);
    assert forall id :: LastJoin(es, id) == LastJoin(es[..|es| - 1], id);
    forall i, j | 0 <= i < j < |o| ensures LastJoin(es, o[i].id) < LastJoin(es, o[j].id) {
      if k < |b| && o == Without(b, k) {
        WithoutAt(b, k, i);
        WithoutAt(b, k, j);
      }
    }
  }

  // Hence every level's list is in join order too.
  lemma LevelInJoinOrder(es: seq<Event>, side: Side, price: i64)
    ensures InJoinOrder(es, Level(Run(es), side, price))
  {
    var b := Run(es);
    RunInJoinOrder(es);
    forall i, j | 0 <= i < j < |Level(b, side, price)|
      ensures LastJoin(es, Level(b, side, price)[i].id) < LastJoin(es, Level(b, side, price)[j].id)
    {
      var i' := LevelMember(b, side, price, i);
      var j' := LevelMember(b, side, price, j);
      if j' <= i' {
        RankMonotone(b, j', i', side, price);
      }
    }
  }

  lemma {:induction false} RankMonotone(b: Book, i: nat, j: nat, side: Side, price: i64)
    requires i <= j <= |b|
    ensures Rank(b, i, side, price) <= Rank(b, j, side, price)
  {
    assert b[..j] == b[..i] + b[i..j];
    LevelAppend(b[..i], b[i..j], side, price);
  }
}
