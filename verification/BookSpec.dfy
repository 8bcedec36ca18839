// The reference model of an order book: the list of live orders, in the order in
// which they last joined their price level.
module BookSpec {
  import opened MarketData
  import opened Sequences

  datatype Order = Order(id: u64, side: Side, price: i64, quantity: u32, entryTime: i64, lastUpdate: i64)

  type Book = seq<Order>

  // The position of an order, or |b| if it is not live.
  function IndexOf(b: Book, id: u64): (i: nat)
    ensures i <= |b|
    ensures i < |b| ==> b[i].id == id
    ensures forall j :: 0 <= j < i ==> b[j].id != id
  {
    if b == [] then 0 else if b[0].id == id then 0 else 1 + IndexOf(b[1..], id)
  }

  predicate Live(b: Book, id: u64) {
    IndexOf(b, id) < |b|
  }

  function Drop(b: Book, id: u64): Book {
    if Live(b, id) then Without(b, IndexOf(b, id)) else b
  }

  // ---------- Events ----------

  function NewOrder(e: Event): Order {
    Order(e.orderId, e.side, e.price, e.size, e.tsEvent, e.tsEvent)
  }

  // A new order goes to the back; a live order of the same id is replaced.
  function AddOrder(b: Book, e: Event): Book {
    if e.side == NoSide || !e.PriceDefined() then b
    else Drop(b, e.orderId) + [NewOrder(e)]
  }

  // The event carries what remains of the order; nothing remaining removes it.
  function CancelOrder(b: Book, e: Event): Book {
    var i := IndexOf(b, e.orderId);
    if i == |b| then b
    else if e.size == 0 then Without(b, i)
    else b[i := b[i].(quantity := e.size, lastUpdate := e.tsEvent)]
  }

  // The event with the fields it leaves open filled in from the live order.
  function Completed(o: Order, e: Event): Event {
    e.(side := if e.side != NoSide then e.side else o.side, price := if e.PriceDefined() then e.price else o.price)
  }

  predicate Moves(o: Order, e: Event) {
    Completed(o, e).side != o.side || Completed(o, e).price != o.price
  }

  // A modification that changes side or price moves the order to the back of its
  // new level; any other one is a cancellation down (or up) to the new size.
  function ModifyOrder(b: Book, e: Event): Book {
    var i := IndexOf(b, e.orderId);
    if i == |b| then AddOrder(b, e)
    else if Moves(b[i], e) then AddOrder(b, Completed(b[i], e))
    else CancelOrder(b, e)
  }

  function Apply(b: Book, e: Event): Book {
    if e.Skipped() then b
    else match e.action
      case Add => AddOrder(b, e)
      case Cancel => CancelOrder(b, e)
      case Modify => ModifyOrder(b, e)
      case Clear => []
      case _ => b
  }

  function Run(es: seq<Event>): Book {
    if es == [] then [] else Apply(Run(es[..|es| - 1]), es[|es| - 1])
  }

  // ---------- What a book shows ----------

  // The orders of one price level, first in time first.
  function Level(b: Book, side: Side, price: i64): Book {
    if b == [] then []
    else Level(b[..|b| - 1], side, price) + One(b[|b| - 1], side, price)
  }

  function One(o: Order, side: Side, price: i64): Book {
    if o.side == side && o.price == price then [o] else []
  }

  function Total(b: Book): nat {
    if b == [] then 0 else Total(b[..|b| - 1]) + b[|b| - 1].quantity
  }

  function Volume(b: Book, side: Side, price: i64): nat {
    Total(Level(b, side, price))
  }

  predicate HasSide(b: Book, side: Side) {
    exists i :: 0 <= i < |b| && b[i].side == side
  }

  datatype Option<T> = None | Some(value: T)

  // p is at least as good as q for an order of the given side.
  predicate NoWorse(side: Side, p: i64, q: i64) {
    if side == Buy then p >= q else p <= q
  }

  // r is the best price of a side.
  predicate IsBest(b: Book, side: Side, r: Option<i64>) {
    match r
    case None => !HasSide(b, side)
    case Some(p) =>
      (exists i :: 0 <= i < |b| && b[i].side == side && b[i].price == p) &&
      forall i :: 0 <= i < |b| && b[i].side == side ==> NoWorse(side, p, b[i].price)
  }

  // out lists the levels of a side with their volumes, best price first.
  predicate IsLevelList(b: Book, side: Side, out: seq<(i64, int)>) {
    (forall i, j :: 0 <= i < j < |out| ==> out[i].0 != out[j].0 && NoWorse(side, out[i].0, out[j].0)) &&
    (forall i :: 0 <= i < |out| ==> Level(b, side, out[i].0) != [] && out[i].1 == Volume(b, side, out[i].0)) &&
    (forall p: i64 :: Level(b, side, p) != [] ==> exists i :: 0 <= i < |out| && out[i].0 == p)
  }

  // ---------- Well-formed books ----------

  predicate WellFormed(b: Book) {
    (forall i, j :: 0 <= i < j < |b| ==> b[i].id != b[j].id) &&
    (forall i :: 0 <= i < |b| ==> b[i].side != NoSide && b[i].price != UNDEF_PRICE)
  }

  lemma WithoutWellFormed(b: Book, i: nat)
    requires WellFormed(b) && i < |b|
    ensures WellFormed(Without(b, i))
    ensures forall j :: 0 <= j < |Without(b, i)| ==> Without(b, i)[j].id != b[i].id
  {
    forall j | 0 <= j < |b| - 1
      ensures Without(b, i)[j] == b[if j < i then j else j + 1]
    {
      WithoutAt(b, i, j);
    }
  }

  lemma AddWellFormed(b: Book, e: Event)
    requires WellFormed(b)
    ensures WellFormed(AddOrder(b, e))
  {
    if Live(b, e.orderId) {
      WithoutWellFormed(b, IndexOf(b, e.orderId));
    }
  }

  lemma ApplyWellFormed(b: Book, e: Event)
    requires WellFormed(b)
    ensures WellFormed(Apply(b, e))
  {
    hide WellFormed, IndexOf;
    var i := IndexOf(b, e.orderId);
    AddWellFormed(b, e);
    assert WellFormed([]) by { EmptyWellFormed(); }
    if i < |b| {
      AddWellFormed(b, Completed(b[i], e));
      WithoutWellFormed(b, i);
      UpdateWellFormed(b, i, b[i].(quantity := e.size, lastUpdate := e.tsEvent));
    }
  }

  lemma EmptyWellFormed()
    ensures WellFormed([])
  {
  }

  lemma UpdateWellFormed(b: Book, i: nat, o: Order)
    requires WellFormed(b) && i < |b| && o.id == b[i].id && o.side == b[i].side && o.price == b[i].price
    ensures WellFormed(b[i := o])
  {
  }

  lemma {:induction false} RunWellFormed(es: seq<Event>)
    ensures WellFormed(Run(es))
  {
    if es != [] {
      RunWellFormed(es[..|es| - 1]);
      ApplyWellFormed(Run(es[..|es| - 1]), es[|es| - 1]);
    }
  }

  // ---------- Levels under the elementary changes ----------

  lemma {:induction false} LevelAppend(a: Book, b: Book, side: Side, price: i64)
    ensures Level(a + b, side, price) == Level(a, side, price) + Level(b, side, price)
  {
    if b == [] {
      assert a + b == a;
    } else {
      assert (a + b)[..|a + b| - 1] == a + b[..|b| - 1];
      LevelAppend(a, b[..|b| - 1], side, price);
    }
  }

  lemma {:induction false} TotalAppend(a: Book, b: Book)
    ensures Total(a + b) == Total(a) + Total(b)
  {
    if b == [] {
      assert a + b == a;
    } else {
      assert (a + b)[..|a + b| - 1] == a + b[..|b| - 1];
      TotalAppend(a, b[..|b| - 1]);
    }
  }

  lemma TotalWithout(b: Book, i: nat)
    requires i < |b|
    ensures Total(Without(b, i)) == Total(b) - b[i].quantity
  {
    hide Total;
    TotalThree(b[..i], b[i], b[i + 1..]);
    assert b == b[..i] + [b[i]] + b[i + 1..];
    TotalAppend(b[..i], b[i + 1..]);
  }

  lemma TotalThree(a: Book, o: Order, c: Book)
    ensures Total(a + [o] + c) == Total(a) + o.quantity + Total(c)
  {
    TotalAppend(a + [o], c);
    TotalPush(a, o);
  }

  lemma TotalUpdate(b: Book, i: nat, o: Order)
    requires i < |b|
    ensures Total(b[i := o]) == Total(b) - b[i].quantity + o.quantity
  {
    TotalWithout(b, i);
    TotalWithout(b[i := o], i);
    assert Without(b[i := o], i) == Without(b, i);
  }

  lemma TotalPush(b: Book, o: Order)
    ensures Total(b + [o]) == Total(b) + o.quantity
  {
    assert (b + [o])[..|b|] == b;
  }

  // How many orders of the level stand before position i.
  function Rank(b: Book, i: nat, side: Side, price: i64): nat
    requires i <= |b|
  {
    |Level(b[..i], side, price)|
  }

  lemma LevelSplit(b: Book, i: nat, side: Side, price: i64)
    requires i < |b|
    ensures Level(b, side, price) ==
      Level(b[..i], side, price) + One(b[i], side, price) + Level(b[i + 1..], side, price)
  {
    assert b == b[..i] + [b[i]] + b[i + 1..];
    LevelAppend(b[..i] + [b[i]], b[i + 1..], side, price);
    LevelAppend(b[..i], [b[i]], side, price);
    assert [b[i]][..0] == [];
  }

  // Removing an order removes it from its level and leaves the others alone.
  lemma LevelWithout(b: Book, i: nat, side: Side, price: i64)
    requires i < |b|
    ensures var k := Rank(b, i, side, price);
      if b[i].side == side && b[i].price == price then
        k < |Level(b, side, price)| && Level(b, side, price)[k] == b[i] &&
        Level(Without(b, i), side, price) == Without(Level(b, side, price), k)
      else
        Level(Without(b, i), side, price) == Level(b, side, price)
  {
    LevelSplit(b, i, side, price);
    LevelAppend(b[..i], b[i + 1..], side, price);
    CutOut(Level(b[..i], side, price), b[i], Level(b[i + 1..], side, price));
  }

  lemma CutOut(a: Book, o: Order, c: Book)
    ensures (a + [o] + c)[|a|] == o && Without(a + [o] + c, |a|) == a + c && a + [] + c == a + c
  {
    var s := a + [o] + c;
    assert s[..|a|] == a && s[|a| + 1..] == c;
  }

  // Changing an order in place changes it in its level and nothing else.
  lemma LevelUpdate(b: Book, i: nat, o: Order, side: Side, price: i64)
    requires i < |b| && o.side == b[i].side && o.price == b[i].price
    ensures var k := Rank(b, i, side, price);
      if o.side == side && o.price == price then
        k < |Level(b, side, price)| && Level(b, side, price)[k] == b[i] &&
        Level(b[i := o], side, price) == Level(b, side, price)[k := o]
      else
        Level(b[i := o], side, price) == Level(b, side, price)
  {
    var c := b[i := o];
    assert c[..i] == b[..i] && c[i + 1..] == b[i + 1..];
    LevelSplit(b, i, side, price);
    LevelSplit(c, i, side, price);
  }

  lemma LevelPush(b: Book, o: Order, side: Side, price: i64)
    ensures Level(b + [o], side, price) == Level(b, side, price) + One(o, side, price)
  {
    assert (b + [o])[..|b|] == b;
  }

  // An order of a level is an order of the book, at the given rank.
  lemma {:induction false} LevelMember(b: Book, side: Side, price: i64, k: nat) returns (i: nat)
    requires k < |Level(b, side, price)|
    ensures i < |b| && b[i] == Level(b, side, price)[k] && b[i].side == side && b[i].price == price
    ensures Rank(b, i, side, price) == k
  {
    var c := b[..|b| - 1];
    if k < |Level(c, side, price)| {
      i := LevelMember(c, side, price, k);
      assert b[..i] == c[..i];
    } else {
      i := |b| - 1;
    }
  }
}
