// Whole event streams run on the book objects, and the answers they then give.
module BookDriver {
  import opened MarketData
  import opened BookSpec
  import opened MapBook
  import opened BookAgreement
  import opened BookBehaviour
  import LimitBook

  datatype Answers = Answers(best: Option<i64>, volume: int, empty: bool, levels: seq<(i64, int)>)

  method RunBooks(es: seq<Event>, replaceLive: bool)
    returns (limit: LimitBook.LimitOrderBook, maps: MapOrderBook)
    ensures fresh(limit) && fresh(limit.queues.Keys) && fresh(limit.orders.Values) && fresh(maps)
    ensures limit.Valid() && limit.book == Run(es)
    ensures maps.replaceLive == replaceLive && maps.Value() == RunMap(es, replaceLive)
  {
    hide LimitBook.LimitOrderBook.Valid, Apply, Step;
    limit := new LimitBook.LimitOrderBook();
    maps := new MapOrderBook(replaceLive);
    var k := 0;
    while k < |es|
      invariant 0 <= k <= |es|
      invariant fresh(limit) && fresh(limit.queues.Keys) && fresh(limit.orders.Values) && fresh(maps)
      invariant limit.Valid() && limit.book == Run(es[..k])
      invariant maps.replaceLive == replaceLive && maps.Value() == RunMap(es[..k], replaceLive)
    {
      PrefixRuns(es, k, replaceLive);
      limit.Apply(es[k]);
      maps.Apply(es[k]);
      k := k + 1;
    }
    assert es[..k] == es;
  }

  method AskLimit(limit: LimitBook.LimitOrderBook, side: Side, price: i64) returns (a: Answers)
    requires limit.Valid()
    ensures IsBest(limit.book, side, a.best)
    ensures a.volume == if side == NoSide then 0 else Volume(limit.book, side, price)
    ensures a.empty <==> if side == NoSide then limit.book == [] else !HasSide(limit.book, side)
    ensures if side == NoSide then a.levels == [] else IsLevelList(limit.book, side, a.levels)
  {
    hide LimitBook.LimitOrderBook.Valid, IsLevelList;
    var levels := limit.SideLevels(side);
    a := Answers(limit.BestPrice(side), limit.VolumeAt(side, price), limit.Empty(side), levels);
  }

  method AskMap(maps: MapOrderBook, side: Side, price: i64) returns (a: Answers)
    ensures side == NoSide ==> a.best == None && a.volume == 0
    ensures side != NoSide ==> IsFirst(SideOfMap(maps.Value(), side), side, a.best)
    ensures side != NoSide ==> a.volume == MapTotal(maps.Value(), side, price)
    ensures a.empty <==> if side == NoSide then maps.bids == map[] && maps.asks == map[]
                         else SideOfMap(maps.Value(), side) == map[]
    ensures side != NoSide ==> IsListing(SideOfMap(maps.Value(), side), side, a.levels)
  {
    var best := maps.BestPrice(side);
    var levels := maps.SideLevels(side);
    a := Answers(best, maps.VolumeAt(side, price), maps.Empty(side), levels);
  }

  // Run over the same events, both books give the answers of the reference book, as long as
  // the map book can follow every event.
  method RunAndAsk(es: seq<Event>, replaceLive: bool, side: Side, price: i64)
    returns (fromLimit: Answers, fromMap: Answers)
    ensures IsBest(Run(es), side, fromLimit.best)
    ensures side != NoSide ==> fromLimit.volume == Volume(Run(es), side, price)
    ensures side != NoSide ==> fromLimit.empty == !HasSide(Run(es), side)
    ensures side != NoSide ==> IsLevelList(Run(es), side, fromLimit.levels)
    ensures side != NoSide && FollowingStream(es, replaceLive) ==> fromMap == fromLimit
  {
    hide LimitBook.LimitOrderBook.Valid, Run, RunMap, IsLevelList, IsListing, IsBest, IsFirst, Volume, HasSide;
    var limit, maps := RunBooks(es, replaceLive);
    fromLimit := AskLimit(limit, side, price);
    fromMap := AskMap(maps, side, price);
    if side != NoSide && FollowingStream(es, replaceLive) {
      StreamShows(es, replaceLive);
      SameAnswer(limit.book, maps.Value(), side, price, fromLimit, fromMap);
    }
  }

  lemma StreamShows(es: seq<Event>, replaceLive: bool)
    requires FollowingStream(es, replaceLive)
    ensures Shows(Run(es), RunMap(es, replaceLive))
  {
    hide Follows, Run, RunMap;
    InStepUpTo(es, |es|, replaceLive);
    assert es[..|es|] == es;
  }

  lemma SameAnswer(b: Book, s: State, side: Side, price: i64, a: Answers, a': Answers)
    requires Shows(b, s) && side != NoSide
    requires IsBest(b, side, a.best) && IsFirst(SideOfMap(s, side), side, a'.best)
    requires a.volume == Volume(b, side, price) && a'.volume == MapTotal(s, side, price)
    requires a.empty == !HasSide(b, side) && a'.empty == (SideOfMap(s, side) == map[])
    requires IsLevelList(b, side, a.levels) && IsListing(SideOfMap(s, side), side, a'.levels)
    ensures a' == a
  {
    hide Shows, IsLevelList, IsListing, IsBest, IsFirst, Volume, HasSide, SideOfMap;
    SameBest(b, s, side, a'.best);
    BestUnique(b, side, a.best, a'.best);
    SameVolume(b, s, side, price);
    SameEmptiness(b, s, side);
    SameLevels(b, s, side, a'.levels);
    LevelListUnique(b, side, a.levels, a'.levels);
  }
}
