// The simpler books: price maps with a total per level, and an id index.  The
// Abseil variant does not look for a live order when it adds one.
module MapBook {
  import opened MarketData
  import opened BookSpec

  datatype Record = Record(side: Side, price: i64, size: u32)

  type Totals = map<i64, int>

  datatype State = State(bids: Totals, asks: Totals, index: map<u64, Record>)

  const EMPTY := State(map[], map[], map[])

  // ---------- Level totals ----------

  function Added(m: Totals, price: i64, delta: int): Totals {
    m[price := (if price in m then m[price] else 0) + delta]
  }

  function Reduced(m: Totals, price: i64, delta: int): Totals {
    if price !in m then m
    else if m[price] - delta <= 0 then m - {price}
    else m[price := m[price] - delta]
  }

  function AddToLevel(s: State, side: Side, price: i64, delta: int): State {
    if side == Buy then s.(bids := Added(s.bids, price, delta)) else s.(asks := Added(s.asks, price, delta))
  }

  function RemoveFromLevel(s: State, side: Side, price: i64, delta: int): State {
    if side == Buy then s.(bids := Reduced(s.bids, price, delta)) else s.(asks := Reduced(s.asks, price, delta))
  }

  // ---------- Events ----------

  function Insert(s: State, id: u64, r: Record): State {
    var s1 := AddToLevel(s, r.side, r.price, r.size);
    s1.(index := s1.index[id := r])
  }

  function Effective(e: Event): bool {
    e.side != NoSide && e.PriceDefined()
  }

  function Evicted(s: State, id: u64): State {
    if id in s.index then RemoveFromLevel(s, s.index[id].side, s.index[id].price, s.index[id].size) else s
  }

  function CancelIn(s: State, e: Event): State {
    if e.orderId !in s.index then s
    else
      var r := s.index[e.orderId];
      var s1 := if r.size - e.size > 0 then RemoveFromLevel(s, r.side, r.price, r.size - e.size) else s;
      s1.(index := if e.size == 0 then s1.index - {e.orderId} else s1.index[e.orderId := r.(size := e.size)])
  }

  function ModifyIn(s: State, e: Event): State {
    if e.orderId in s.index then
      var r := s.index[e.orderId];
      var side := if e.side != NoSide then e.side else r.side;
      var price := if e.PriceDefined() then e.price else r.price;
      Insert(Evicted(s, e.orderId), e.orderId, Record(side, price, e.size))
    else if Effective(e) then
      Insert(s, e.orderId, Record(e.side, e.price, e.size))
    else
      s
  }

  // One event; only replaceLive distinguishes the two books.
  function Step(s: State, e: Event, replaceLive: bool): State {
    match e.action
    case Add =>
      if !Effective(e) then s
      else Insert(if replaceLive then Evicted(s, e.orderId) else s, e.orderId, Record(e.side, e.price, e.size))
    case Cancel => CancelIn(s, e)
    case Modify => ModifyIn(s, e)
    case Clear => EMPTY
    case _ => s
  }

  function RunMap(es: seq<Event>, replaceLive: bool): State {
    if es == [] then EMPTY else Step(RunMap(es[..|es| - 1], replaceLive), es[|es| - 1], replaceLive)
  }

  // What a cancellation of a known order does, whatever the maps hold: the record takes the new
  // size or goes, and the order's level loses the difference, if there is one to lose.
  lemma CancelOutcome(s: State, e: Event, replaceLive: bool)
    requires e.action == Cancel && e.orderId in s.index && s.index[e.orderId].side != NoSide
    ensures var r, t := s.index[e.orderId], Step(s, e, replaceLive);
      && t.index == (if e.size == 0 then s.index - {e.orderId}
                     else s.index[e.orderId := Record(r.side, r.price, e.size)])
      && (e.size >= r.size ==> t.bids == s.bids && t.asks == s.asks)
      && (e.size < r.size && r.side == Buy ==> t.asks == s.asks && Lowered(s.bids, t.bids, r.price, r.size - e.size))
      && (e.size < r.size && r.side == Sell ==> t.bids == s.bids && Lowered(s.asks, t.asks, r.price, r.size - e.size))
  {
  }

  // m' is m with delta less at the price, which is gone if nothing would remain there.
  ghost predicate Lowered(m: Totals, m': Totals, price: i64, delta: int) {
    && (forall p :: p != price ==> (p in m' <==> p in m) && (p in m ==> m'[p] == m[p]))
    && (price in m' <==> price in m && m[price] > delta)
    && (price in m' ==> m'[price] == m[price] - delta)
  }

  // ---------- Reading a price map ----------

  // r is the first key of a map ordered best price first.
  predicate IsFirst(m: Totals, side: Side, r: Option<i64>) {
    match r
    case None => m == map[]
    case Some(p) => p in m && forall q :: q in m ==> NoWorse(side, p, q)
  }

  // out lists a map best price first.
  predicate IsListing(m: Totals, side: Side, out: seq<(i64, int)>) {
    (forall i, j :: 0 <= i < j < |out| ==> out[i].0 != out[j].0 && NoWorse(side, out[i].0, out[j].0)) &&
    (forall i :: 0 <= i < |out| ==> out[i].0 in m && m[out[i].0] == out[i].1) &&
    (forall p :: p in m ==> exists i :: 0 <= i < |out| && out[i].0 == p)
  }

  // The first key in the order that the map keeps its keys in; walking the map
  // repeats this on what is left.
  method FirstKey(m: Totals, side: Side) returns (p: i64)
    requires m != map[]
    ensures p in m && forall q :: q in m ==> NoWorse(side, p, q)
  {
    var rest := m.Keys;
    p :| p in rest;
    rest := rest - {p};
    while rest != {}
      invariant p in m && rest <= m.Keys && forall q :: q in m && q !in rest ==> NoWorse(side, p, q)
      decreases rest
    {
      var q :| q in rest;
      if NoWorse(side, q, p) {
        p := q;
      }
      rest := rest - {q};
    }
  }

  method Listing(m: Totals, side: Side) returns (out: seq<(i64, int)>)
    ensures IsListing(m, side, out)
  {
    out := [];
    var rest := m;
    while rest != map[]
      invariant rest.Keys <= m.Keys && forall p :: p in rest ==> rest[p] == m[p]
      invariant forall i, j :: 0 <= i < j < |out| ==> out[i].0 != out[j].0 && NoWorse(side, out[i].0, out[j].0)
      invariant forall i :: 0 <= i < |out| ==> out[i].0 in m && out[i].0 !in rest && m[out[i].0] == out[i].1
      invariant forall i, p :: 0 <= i < |out| && p in rest ==> NoWorse(side, out[i].0, p)
      invariant forall p :: p in m && p !in rest ==> exists i :: 0 <= i < |out| && out[i].0 == p
      decreases rest.Keys
    {
      var p := FirstKey(rest, side);
      ghost var before := out;
      out := out + [(p, rest[p])];
      assert out[|out| - 1].0 == p;
      assert forall i :: 0 <= i < |before| ==> out[i] == before[i];
      rest := rest - {p};
    }
  }

  // ---------- The two books ----------

  // MapOrderBook if replaceLive, else AbseilOrderBook: apart from the test for a
  // live order in the Add case the two are the same.
  class MapOrderBook {
    const replaceLive: bool
    var bids: Totals
    var asks: Totals
    var index: map<u64, Record>

    function Value(): State
      reads this
    {
      State(bids, asks, index)
    }

    constructor (replaceLive: bool)
      ensures Value() == EMPTY && this.replaceLive == replaceLive
    {
      this.replaceLive := replaceLive;
      bids, asks, index := map[], map[], map[];
    }

    method AddTo(side: Side, price: i64, delta: int)
      modifies this`bids, this`asks
      ensures Value() == AddToLevel(old(Value()), side, price, delta)
    {
      if side == Buy {
        bids := bids[price := (if price in bids then bids[price] else 0) + delta];
      } else {
        asks := asks[price := (if price in asks then asks[price] else 0) + delta];
      }
    }

    method RemoveFrom(side: Side, price: i64, delta: int)
      modifies this`bids, this`asks
      ensures Value() == RemoveFromLevel(old(Value()), side, price, delta)
    {
      if side == Buy {
        if price !in bids {
          return;
        }
        bids := bids[price := bids[price] - delta];
        if bids[price] <= 0 {
          bids := bids - {price};
        }
      } else {
        if price !in asks {
          return;
        }
        asks := asks[price := asks[price] - delta];
        if asks[price] <= 0 {
          asks := asks - {price};
        }
      }
    }

    method Apply(e: Event)
      modifies this
      ensures Value() == Step(old(Value()), e, replaceLive)
    {
      match e.action
      case Add =>
        if e.side == NoSide || !e.PriceDefined() {
          return;
        }
        if replaceLive && e.orderId in index {
          var r := index[e.orderId];
          RemoveFrom(r.side, r.price, r.size);
        }
        AddTo(e.side, e.price, e.size);
        index := index[e.orderId := Record(e.side, e.price, e.size)];
      case Cancel =>
        if e.orderId !in index {
          return;
        }
        var r := index[e.orderId];
        var delta := r.size - e.size;
        if delta > 0 {
          RemoveFrom(r.side, r.price, delta);
        }
        if e.size == 0 {
          index := index - {e.orderId};
        } else {
          index := index[e.orderId := r.(size := e.size)];
        }
      case Modify =>
        if e.orderId !in index {
          if e.side != NoSide && e.PriceDefined() {
            AddTo(e.side, e.price, e.size);
            index := index[e.orderId := Record(e.side, e.price, e.size)];
          }
          return;
        }
        var r := index[e.orderId];
        RemoveFrom(r.side, r.price, r.size);
        var newSide := if e.side != NoSide then e.side else r.side;
        var newPrice := if e.PriceDefined() then e.price else r.price;
        AddTo(newSide, newPrice, e.size);
        index := index[e.orderId := Record(newSide, newPrice, e.size)];
      case Clear =>
        bids, asks, index := map[], map[], map[];
      case _ =>
    }

    method BestPrice(side: Side) returns (r: Option<i64>)
      ensures side == NoSide ==> r == None
      ensures side != NoSide ==> IsFirst(if side == Buy then bids else asks, side, r)
    {
      if side == NoSide {
        return None;
      }
      var m := if side == Buy then bids else asks;
      if m == map[] {
        return None;
      }
      var p := FirstKey(m, side);
      r := Some(p);
    }

    function VolumeAt(side: Side, price: i64): int
      reads this
    {
      if side == Buy then (if price in bids then bids[price] else 0)
      else if side == Sell then (if price in asks then asks[price] else 0)
      else 0
    }

    predicate Empty(side: Side)
      reads this
    {
      match side
      case Buy => bids == map[]
      case Sell => asks == map[]
      case NoSide => asks == map[] && bids == map[]
    }

    // Any side that is not the bid side lists the asks.
    method SideLevels(side: Side) returns (out: seq<(i64, int)>)
      ensures IsListing(if side == Buy then bids else asks, if side == Buy then Buy else Sell, out)
    {
      if side == Buy {
        out := Listing(bids, Buy);
      } else {
        out := Listing(asks, Sell);
      }
    }
  }
}
