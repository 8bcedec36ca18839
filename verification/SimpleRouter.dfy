// The sequential router: one book per instrument and a cache from order id to instrument.
// A book is represented by the events applied to it, in order, so that what is proved of
// the routing holds for every book type.
module SimpleRouter {
  import opened MarketData

  datatype Router = Router(cache: map<u64, u32>, books: map<u32, seq<Event>>)

  const NEW_ROUTER := Router(map[], map[])

  function Lookup(cache: map<u64, u32>, id: u64): u32 {
    if id in cache then cache[id] else 0
  }

  function Book(r: Router, i: u32): seq<Event> {
    if i in r.books then r.books[i] else []
  }

  function Learned(cache: map<u64, u32>, e: Event): map<u64, u32> {
    if e.instrumentId != 0 && e.orderId != 0 then cache[e.orderId := e.instrumentId] else cache
  }

  // Looking up an unknown id leaves a zero behind in the cache.
  function Route(r: Router, e: Event): Router {
    var learned := Learned(r.cache, e);
    var i := Lookup(learned, e.orderId);
    var cache := learned[e.orderId := i];
    if i == 0 && e.orderId != 0 then Router(cache, r.books)
    else Router(cache, r.books[i := Book(r, i) + [e]])
  }

  function RunRouter(es: seq<Event>): Router {
    if es == [] then NEW_ROUTER else Route(RunRouter(es[..|es| - 1]), es[|es| - 1])
  }

  class SimpleOrderBookRouter {
    var orderToInstrument: map<u64, u32>
    var orderBooks: map<u32, seq<Event>>

    function Value(): Router
      reads this
    {
      Router(orderToInstrument, orderBooks)
    }

    constructor ()
      ensures Value() == NEW_ROUTER
    {
      orderToInstrument := map[];
      orderBooks := map[];
    }

    method Apply(e: Event)
      modifies this
      ensures Value() == Route(old(Value()), e)
    {
      if e.instrumentId != 0 && e.orderId != 0 {
        orderToInstrument := orderToInstrument[e.orderId := e.instrumentId];
      }
      if e.orderId !in orderToInstrument {
        orderToInstrument := orderToInstrument[e.orderId := 0];
      }
      var i := orderToInstrument[e.orderId];
      assert orderToInstrument == orderToInstrument[e.orderId := i];
      if i == 0 && e.orderId != 0 {
        return;
      }
      if i !in orderBooks {
        orderBooks := orderBooks[i := []];
      }
      orderBooks := orderBooks[i := orderBooks[i] + [e]];
    }
  }

  // ---------- What routing means ----------

  // The instrument an order id belongs to: the one named by the latest event that has both.
  function Owner(es: seq<Event>, id: u64): u32 {
    if es == [] then 0
    else
      var e := es[|es| - 1];
      if e.orderId == id && id != 0 && e.instrumentId != 0 then e.instrumentId else Owner(es[..|es| - 1], id)
  }

  // The events of an instrument's orders.
  function Owned(es: seq<Event>, i: u32): seq<Event> {
    if es == [] then []
    else
      var e := es[|es| - 1];
      var before := Owned(es[..|es| - 1], i);
      if e.orderId != 0 && Owner(es, e.orderId) == i then before + [e] else before
  }

  lemma {:induction false} CacheIsOwner(es: seq<Event>, id: u64)
    ensures Lookup(RunRouter(es).cache, id) == Owner(es, id)
  {
    if es != [] {
      CacheIsOwner(es[..|es| - 1], id);
      CacheIsOwner(es[..|es| - 1], es[|es| - 1].orderId);
    }
  }

  // Each book receives exactly the events of its instrument's orders.
  lemma {:induction false} BookIsOwned(es: seq<Event>, i: u32)
    requires i != 0
    ensures Book(RunRouter(es), i) == Owned(es, i)
  {
    if es != [] {
      var before, e := es[..|es| - 1], es[|es| - 1];
      BookIsOwned(before, i);
      CacheIsOwner(before, e.orderId);
      CacheIsOwner(es, e.orderId);
      assert Lookup(RunRouter(es).cache, e.orderId) == Lookup(Learned(RunRouter(before).cache, e), e.orderId);
      if e.orderId == 0 {
        NoOwner(es);
      }
    }
  }

  lemma {:induction false} NoOwner(es: seq<Event>)
    ensures Owner(es, 0) == 0
  {
    if es != [] {
      NoOwner(es[..|es| - 1]);
    }
  }

  // The events without an order id.
  function Nameless(es: seq<Event>): seq<Event> {
    if es == [] then []
    else
      var e := es[|es| - 1];
      Nameless(es[..|es| - 1]) + if e.orderId == 0 then [e] else []
  }

  // They all go to book 0, whatever instrument they name, and nothing else does.
  lemma {:induction false} BookZero(es: seq<Event>)
    ensures Book(RunRouter(es), 0) == Nameless(es)
  {
    if es != [] {
      var before, e := es[..|es| - 1], es[|es| - 1];
      BookZero(before);
      CacheIsOwner(es, e.orderId);
      CacheIsOwner(before, e.orderId);
      NoOwner(es);
      NoOwner(before);
      assert Lookup(RunRouter(es).cache, e.orderId) == Lookup(Learned(RunRouter(before).cache, e), e.orderId);
      assert Nameless(before) + [] == Nameless(before);
    }
  }
}
