// What one event leaves of the order it names, told by the event's fields alone.
module BookOutcome {
  import opened MarketData
  import opened BookSpec

  // No order has this id.
  predicate Unknown(b: Book, id: u64) {
    forall k :: 0 <= k < |b| ==> b[k].id != id
  }

  // Flag 4 says that the book may be bad, flag 8 that the receive time is.
  predicate Usable(e: Event) {
    e.flags & 4 == 0 && e.flags & 8 == 0
  }

  predicate Placeable(e: Event) {
    e.side != NoSide && e.price != 0x7FFF_FFFF_FFFF_FFFF
  }

  lemma FlaggedUntouched(b: Book, e: Event)
    requires e.flags & 4 != 0 || e.flags & 8 != 0
    ensures Apply(b, e) == b
  {
  }

  lemma {:induction false} UnknownIndex(b: Book, id: u64)
    ensures Unknown(b, id) <==> IndexOf(b, id) == |b|
  {
    if b != [] {
      UnknownIndex(b[1..], id);
      assert b == [b[0]] + b[1..];
    }
  }

  // An id that is not live: adds and modifications with a side and a price open an order at the
  // back, and nothing else but a clear changes anything.
  lemma UnknownOutcome(b: Book, e: Event)
    requires Usable(e) && Unknown(b, e.orderId)
    ensures Apply(b, e) ==
      if e.action == Clear then []
      else if (e.action == Add || e.action == Modify) && Placeable(e) then
        b + [Order(e.orderId, e.side, e.price, e.size, e.tsEvent, e.tsEvent)]
      else b
  {
    UnknownIndex(b, e.orderId);
  }

  // The side and the price that a modification of o asks for; what it leaves open stays.
  function SideAfter(o: Order, e: Event): Side {
    if e.side == NoSide then o.side else e.side
  }

  function PriceAfter(o: Order, e: Event): i64 {
    if e.price == 0x7FFF_FFFF_FFFF_FFFF then o.price else e.price
  }

  // What becomes of the live order at position i: resized where it stands, taken out, or taken
  // out and put in anew at the back.
  lemma KnownOutcome(b: Book, e: Event, i: nat)
    requires WellFormed(b) && Usable(e) && i < |b| && b[i].id == e.orderId
    ensures var o, rest := b[i], b[..i] + b[i + 1..];
      var resized := b[i := Order(o.id, o.side, o.price, e.size, o.entryTime, e.tsEvent)];
      var side, price := SideAfter(o, e), PriceAfter(o, e);
      Apply(b, e) ==
        match e.action
        case Add =>
          if Placeable(e) then rest + [Order(o.id, e.side, e.price, e.size, e.tsEvent, e.tsEvent)] else b
        case Cancel => if e.size == 0 then rest else resized
        case Modify =>
          if side != o.side || price != o.price then
            rest + [Order(o.id, side, price, e.size, e.tsEvent, e.tsEvent)]
          else if e.size == 0 then rest
          else resized
        case Clear => []
        case Trade => b
        case Fill => b
        case NoAction => b
  {
    OnlyIndex(b, i);
    assert b[i].side != NoSide && b[i].price != UNDEF_PRICE;
    hide WellFormed, IndexOf;
  }

  lemma OnlyIndex(b: Book, i: nat)
    requires WellFormed(b) && i < |b|
    ensures IndexOf(b, b[i].id) == i
  {
  }

  // In particular a modification of size 0 that keeps side and price takes the order out.
  lemma ModifyToNothing(b: Book, e: Event, i: nat)
    requires WellFormed(b) && Usable(e) && i < |b| && b[i].id == e.orderId && e.action == Modify && e.size == 0
    requires SideAfter(b[i], e) == b[i].side && PriceAfter(b[i], e) == b[i].price
    ensures Apply(b, e) == b[..i] + b[i + 1..] && Unknown(Apply(b, e), e.orderId)
  {
    KnownOutcome(b, e, i);
    WithoutWellFormed(b, i);
  }

  // The best bid is the highest price bid, the best ask the lowest price asked.
  lemma BestMeans(b: Book, r: Option<i64>)
    ensures IsBest(b, Buy, r) <==>
      match r
      case None => forall k :: 0 <= k < |b| ==> b[k].side != Buy
      case Some(p) =>
        (exists k :: 0 <= k < |b| && b[k].side == Buy && b[k].price == p) &&
        forall k :: 0 <= k < |b| && b[k].side == Buy ==> b[k].price <= p
    ensures IsBest(b, Sell, r) <==>
      match r
      case None => forall k :: 0 <= k < |b| ==> b[k].side != Sell
      case Some(p) =>
        (exists k :: 0 <= k < |b| && b[k].side == Sell && b[k].price == p) &&
        forall k :: 0 <= k < |b| && b[k].side == Sell ==> p <= b[k].price
  {
  }
}
