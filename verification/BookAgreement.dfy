// When the price-map books and the limit order book show the same.
module BookAgreement {
  import opened MarketData
  import opened BookSpec
  import opened MapBook
  import opened Sequences

  // ---------- Being in step ----------

  predicate Positive(b: Book) {
    forall i :: 0 <= i < |b| ==> b[i].quantity > 0
  }

  function RecordOf(o: Order): Record {
    Record(o.side, o.price, o.quantity)
  }

  // The index holds exactly the live orders.
  predicate IndexAgrees(b: Book, index: map<u64, Record>) {
    (forall i :: 0 <= i < |b| ==> b[i].id in index && index[b[i].id] == RecordOf(b[i])) &&
    (forall id :: id in index ==> Live(b, id))
  }

  // The map holds exactly the levels of the side, with their volumes.
  ghost predicate SideAgrees(b: Book, side: Side, m: Totals) {
    forall p: i64 :: LevelAgrees(Level(b, side, p), m, p)
  }

  predicate LevelAgrees(os: Book, m: Totals, p: i64) {
    (p in m <==> os != []) && (p in m ==> m[p] == Total(os))
  }

  // The two books show the same; see SameAnswers.
  ghost predicate Shows(b: Book, s: State) {
    SideAgrees(b, Buy, s.bids) && SideAgrees(b, Sell, s.asks)
  }

  // They also hold the same orders, none of them empty.
  ghost predicate InStep(b: Book, s: State) {
    WellFormed(b) && Positive(b) && IndexAgrees(b, s.index) && Shows(b, s)
  }

  // ---------- One side under the elementary changes ----------

  lemma {:induction false} TotalPositive(b: Book)
    requires Positive(b)
    ensures Total(b) == 0 <==> b == []
  {
    if b != [] {
      var c := b[..|b| - 1];
      assert forall i :: 0 <= i < |c| ==> c[i] == b[i];
      TotalPositive(c);
    }
  }

  lemma LevelPositive(b: Book, side: Side, p: i64)
    requires Positive(b)
    ensures Positive(Level(b, side, p))
  {
    forall k | 0 <= k < |Level(b, side, p)| ensures Level(b, side, p)[k].quantity > 0 {
      var i := LevelMember(b, side, p, k);
    }
  }

  function Push(m: Totals, side: Side, o: Order): Totals {
    if o.side == side then Added(m, o.price, o.quantity) else m
  }

  lemma PushAgrees(b: Book, side: Side, m: Totals, o: Order)
    requires SideAgrees(b, side, m)
    ensures SideAgrees(b + [o], side, Push(m, side, o))
  {
    forall p: i64 ensures LevelAgrees(Level(b + [o], side, p), Push(m, side, o), p) {
      assert LevelAgrees(Level(b, side, p), m, p);
      LevelPush(b, o, side, p);
      TotalPush(Level(b, side, p), o);
      assert Level(b, side, p) + [] == Level(b, side, p);
    }
  }

  function Pull(m: Totals, side: Side, o: Order): Totals {
    if o.side == side then Reduced(m, o.price, o.quantity) else m
  }

  // Taking an order out of a level, unless what stays there are only empty orders.
  lemma PullLevelIf(b: Book, side: Side, m: Totals, i: nat, p: i64)
    requires LevelAgrees(Level(b, side, p), m, p) && i < |b|
    requires b[i].side == side && b[i].price == p && Total(Level(Without(b, i), side, p)) == 0 ==>
      Level(Without(b, i), side, p) == []
    ensures LevelAgrees(Level(Without(b, i), side, p), Pull(m, side, b[i]), p)
  {
    hide Level, Total, Without;
    LevelWithout(b, i, side, p);
    if b[i].side == side && b[i].price == p {
      TotalWithout(Level(b, side, p), Rank(b, i, side, p));
    }
    TotalEmpty();
  }

  lemma TotalEmpty()
    ensures Total([]) == 0
  {
  }

  lemma PullLevel(b: Book, side: Side, m: Totals, i: nat, p: i64)
    requires LevelAgrees(Level(b, side, p), m, p) && Positive(b) && i < |b|
    ensures LevelAgrees(Level(Without(b, i), side, p), Pull(m, side, b[i]), p)
  {
    hide Positive, Level, Total, Without;
    WithoutPositive(b, i);
    LevelPositive(Without(b, i), side, p);
    TotalPositive(Level(Without(b, i), side, p));
    PullLevelIf(b, side, m, i, p);
  }

  lemma PullAgrees(b: Book, side: Side, m: Totals, i: nat)
    requires SideAgrees(b, side, m) && Positive(b) && i < |b|
    ensures SideAgrees(Without(b, i), side, Pull(m, side, b[i]))
  {
    hide Positive, Level;
    forall p: i64 ensures LevelAgrees(Level(Without(b, i), side, p), Pull(m, side, b[i]), p) {
      assert LevelAgrees(Level(b, side, p), m, p);
      PullLevel(b, side, m, i, p);
    }
  }

  lemma WithoutPositive(b: Book, i: nat)
    requires Positive(b) && i < |b|
    ensures Positive(Without(b, i))
  {
    forall j | 0 <= j < |b| - 1 ensures Without(b, i)[j].quantity > 0 {
      WithoutAt(b, i, j);
    }
  }

  // Moving an order within the book changes no level's size or volume.
  lemma SameTotals(b: Book, i: nat, o: Order, side: Side, p: i64)
    requires i < |b| && o.side == b[i].side && o.price == b[i].price
    ensures |Level(b[i := o], side, p)| == |Level(Without(b, i) + [o], side, p)|
    ensures Total(Level(b[i := o], side, p)) == Total(Level(Without(b, i) + [o], side, p))
  {
    hide Level, Total;
    var c := b[i := o];
    assert Without(c, i) == Without(b, i);
    LevelWithout(c, i, side, p);
    LevelPush(Without(b, i), o, side, p);
    assert Level(Without(b, i), side, p) + [] == Level(Without(b, i), side, p);
    if o.side == side && o.price == p {
      TotalWithout(Level(c, side, p), Rank(c, i, side, p));
      TotalPush(Level(Without(b, i), side, p), o);
    }
  }

  lemma UpdateAgrees(b: Book, side: Side, m: Totals, i: nat, o: Order)
    requires i < |b| && o.side == b[i].side && o.price == b[i].price
    requires SideAgrees(Without(b, i) + [o], side, m)
    ensures SideAgrees(b[i := o], side, m)
  {
    var c := b[i := o];
    forall p: i64 ensures LevelAgrees(Level(c, side, p), m, p) {
      assert LevelAgrees(Level(Without(b, i) + [o], side, p), m, p);
      SameTotals(b, i, o, side, p);
    }
  }

  // ---------- The index ----------

  lemma PushIndex(b: Book, index: map<u64, Record>, o: Order)
    requires IndexAgrees(b, index) && o.id !in index
    ensures IndexAgrees(b + [o], index[o.id := RecordOf(o)])
  {
    var c, index' := b + [o], index[o.id := RecordOf(o)];
    forall id | id in index' ensures Live(c, id) {
      Found(c, id, if id == o.id then |b| else IndexOf(b, id));
    }
  }

  lemma {:induction false} Found(b: Book, id: u64, i: nat)
    requires i < |b| && b[i].id == id
    ensures Live(b, id)
  {
    if b[0].id != id {
      Found(b[1..], id, i - 1);
    }
  }

  lemma PullIndex(b: Book, index: map<u64, Record>, i: nat)
    requires WellFormed(b) && IndexAgrees(b, index) && i < |b|
    ensures IndexAgrees(Without(b, i), index - {b[i].id})
  {
    var c, index' := Without(b, i), index - {b[i].id};
    WithoutWellFormed(b, i);
    forall j | 0 <= j < |c| ensures c[j].id in index' && index'[c[j].id] == RecordOf(c[j]) {
      WithoutAt(b, i, j);
    }
    forall id | id in index' ensures Live(c, id) {
      var j := IndexOf(b, id);
      assert j != i;
      WithoutAt(b, i, if j < i then j else j - 1);
      Found(c, id, if j < i then j else j - 1);
    }
  }

  lemma UpdateIndex(b: Book, index: map<u64, Record>, i: nat, o: Order)
    requires WellFormed(b) && IndexAgrees(b, index) && i < |b| && o.id == b[i].id
    ensures IndexAgrees(b[i := o], index[o.id := RecordOf(o)])
  {
    var c := b[i := o];
    forall id | id in index ensures Live(c, id) {
      Found(c, id, IndexOf(b, id));
    }
  }

  // ---------- One event ----------

  // What the feed has to respect for the books to stay in step: effective adds
  // and modifications carry a size, and a cancellation never raises one.
  predicate Regular(b: Book, e: Event) {
    match e.action
    case Add => Effective(e) ==> e.size > 0
    case Modify => Live(b, e.orderId) || Effective(e) ==> e.size > 0
    case Cancel => Live(b, e.orderId) ==> e.size <= b[IndexOf(b, e.orderId)].quantity
    case _ => true
  }

  // The state without a live order: its size taken off its level, its record gone.
  function Removed(s: State, id: u64): State {
    Evicted(s, id).(index := s.index - {id})
  }

  lemma LiveIndexed(b: Book, s: State, id: u64)
    requires InStep(b, s)
    ensures id in s.index <==> Live(b, id)
    ensures Live(b, id) ==> s.index[id] == RecordOf(b[IndexOf(b, id)]) && b[IndexOf(b, id)].quantity > 0
    ensures Live(b, id) ==> b[IndexOf(b, id)].side != NoSide && b[IndexOf(b, id)].price != UNDEF_PRICE
  {
    if Live(b, id) {
      assert b[IndexOf(b, id)].id in s.index;
    }
  }

  lemma RemovedInStep(b: Book, s: State, id: u64)
    requires InStep(b, s)
    ensures InStep(Drop(b, id), Removed(s, id))
  {
    LiveIndexed(b, s, id);
    hide Positive, SideAgrees, IndexAgrees, WellFormed;
    if Live(b, id) {
      var i := IndexOf(b, id);
      WithoutWellFormed(b, i);
      WithoutPositive(b, i);
      PullIndex(b, s.index, i);
      PullAgrees(b, Buy, s.bids, i);
      PullAgrees(b, Sell, s.asks, i);
    } else {
      assert s.index - {id} == s.index;
    }
  }

  lemma InsertInStep(b: Book, s: State, o: Order)
    requires InStep(b, s) && o.id !in s.index && o.quantity > 0 && o.side != NoSide && o.price != UNDEF_PRICE
    ensures InStep(b + [o], Insert(s, o.id, RecordOf(o)))
  {
    assert WellFormed(b + [o]);
    assert Positive(b + [o]);
    hide Positive, SideAgrees, IndexAgrees, WellFormed;
    PushIndex(b, s.index, o);
    PushAgrees(b, Buy, s.bids, o);
    PushAgrees(b, Sell, s.asks, o);
  }

  // Replacing a live order, or adding a new one.
  lemma ReplaceInStep(b: Book, s: State, o: Order)
    requires InStep(b, s) && o.quantity > 0 && o.side != NoSide && o.price != UNDEF_PRICE
    ensures InStep(Drop(b, o.id) + [o], Insert(Evicted(s, o.id), o.id, RecordOf(o)))
  {
    hide InStep, Drop;
    RemovedInStep(b, s, o.id);
    InsertInStep(Drop(b, o.id), Removed(s, o.id), o);
    assert (s.index - {o.id})[o.id := RecordOf(o)] == s.index[o.id := RecordOf(o)];
    assert Evicted(s, o.id).index == s.index;
  }

  // Resizing a live order where it stands.
  lemma ResizeInStep(b: Book, s: State, e: Event)
    requires InStep(b, s) && Live(b, e.orderId) && e.size > 0
    ensures var i := IndexOf(b, e.orderId);
      var o := b[i].(quantity := e.size, lastUpdate := e.tsEvent);
      InStep(b[i := o], Insert(Evicted(s, e.orderId), e.orderId, RecordOf(o)))
  {
    var i := IndexOf(b, e.orderId);
    var o := b[i].(quantity := e.size, lastUpdate := e.tsEvent);
    var s' := Insert(Evicted(s, e.orderId), e.orderId, RecordOf(o));
    LiveIndexed(b, s, e.orderId);
    ReplaceInStep(b, s, o);
    UpdateWellFormed(b, i, o);
    assert Positive(b[i := o]);
    hide Positive, SideAgrees, IndexAgrees, WellFormed;
    UpdateIndex(b, s.index, i, o);
    UpdateAgrees(b, Buy, s'.bids, i, o);
    UpdateAgrees(b, Sell, s'.asks, i, o);
    assert Evicted(s, e.orderId).index == s.index;
  }

  // Taking a difference off a level, or the old size off and the new one on, is the same.
  lemma ShrinkState(s: State, r: Record, size: u32)
    requires 0 < size <= r.size
    requires var m := if r.side == Buy then s.bids else s.asks; r.price in m && m[r.price] >= r.size
    ensures var t := AddToLevel(RemoveFromLevel(s, r.side, r.price, r.size), r.side, r.price, size);
      t == if r.size - size > 0 then RemoveFromLevel(s, r.side, r.price, r.size - size) else s
  {
    var m := if r.side == Buy then s.bids else s.asks;
    assert Added(Reduced(m, r.price, r.size), r.price, size) == if r.size - size > 0 then Reduced(m, r.price,
        r.size - size) else m;
  }

  // A live order's level holds at least its size.
  lemma LevelCovers(b: Book, s: State, i: nat)
    requires InStep(b, s) && i < |b|
    ensures var m := if b[i].side == Buy then s.bids else s.asks; b[i].price in m && m[b[i].price] >= b[i].quantity
  {
    var side, p := b[i].side, b[i].price;
    LevelUpdate(b, i, b[i], side, p);
    TotalWithout(Level(b, side, p), Rank(b, i, side, p));
    assert LevelAgrees(Level(b, side, p), if side == Buy then s.bids else s.asks, p);
  }

  lemma CancelInStep(b: Book, s: State, e: Event)
    requires InStep(b, s) && (Live(b, e.orderId) ==> e.size <= b[IndexOf(b, e.orderId)].quantity)
    ensures InStep(BookSpec.CancelOrder(b, e), CancelIn(s, e))
  {
    hide InStep;
    LiveIndexed(b, s, e.orderId);
    if Live(b, e.orderId) {
      var i := IndexOf(b, e.orderId);
      if e.size == 0 {
        RemovedInStep(b, s, e.orderId);
      } else {
        ResizeInStep(b, s, e);
        LevelCovers(b, s, i);
        ShrinkState(s, RecordOf(b[i]), e.size);
      }
    }
  }

  lemma ModifyInStep(b: Book, s: State, e: Event)
    requires InStep(b, s) && (Live(b, e.orderId) || Effective(e) ==> e.size > 0)
    ensures InStep(BookSpec.ModifyOrder(b, e), ModifyIn(s, e))
  {
    hide InStep, Insert;
    LiveIndexed(b, s, e.orderId);
    if Live(b, e.orderId) {
      var i := IndexOf(b, e.orderId);
      if Moves(b[i], e) {
        ReplaceInStep(b, s, NewOrder(Completed(b[i], e)));
      } else {
        ResizeInStep(b, s, e);
      }
    } else if Effective(e) {
      ReplaceInStep(b, s, NewOrder(e));
    }
  }

  lemma RegularInStep(b: Book, s: State, e: Event)
    requires InStep(b, s) && !e.Skipped() && Regular(b, e)
    ensures InStep(Apply(b, e), Step(s, e, true))
  {
    match e.action
    case Add =>
      if Effective(e) {
        ReplaceInStep(b, s, NewOrder(e));
      }
    case Cancel => CancelInStep(b, s, e);
    case Modify => ModifyInStep(b, s, e);
    case Clear => EmptyInStep();
    case _ =>
  }

  lemma EmptyInStep()
    ensures InStep([], EMPTY)
  {
    assert forall p: i64 :: Level([], Buy, p) == [] && Level([], Sell, p) == [];
  }

  // ---------- Flagged events and reused ids ----------

  // A flagged event, which the limit book skips and the map book applies, would say
  // nothing new.
  predicate Repeats(b: Book, e: Event) {
    var i := IndexOf(b, e.orderId);
    match e.action
    case Add => Effective(e) ==> i < |b| && RecordOf(b[i]) == Record(e.side, e.price, e.size)
    case Modify => if i < |b| then RecordOf(b[i]) == RecordOf(NewOrder(Completed(b[i], e))) else !Effective(e)
    case Cancel => i < |b| ==> b[i].quantity == e.size
    case Clear => b == []
    case _ => true
  }

  // Taking an order's size off its level and putting it back changes nothing.
  lemma PutBackSame(s: State, id: u64)
    requires id in s.index
    requires var m := if s.index[id].side == Buy then s.bids else s.asks;
      s.index[id].price in m && m[s.index[id].price] >= s.index[id].size
    ensures Insert(Evicted(s, id), id, s.index[id]) == s
  {
    var r, t := s.index[id], Insert(Evicted(s, id), id, s.index[id]);
    assert t.bids == s.bids && t.asks == s.asks && t.index == s.index;
  }

  lemma OnlyEmpty(s: State)
    requires InStep([], s)
    ensures s == EMPTY
  {
    forall p: i64
      ensures p !in s.bids && p !in s.asks
    {
      LevelAgreesAt([], s, Buy, p);
      LevelAgreesAt([], s, Sell, p);
    }
    assert s.bids == map[] && s.asks == map[] && s.index == map[];
  }

  lemma RepeatsKeeps(b: Book, s: State, e: Event)
    requires InStep(b, s) && Repeats(b, e)
    ensures Step(s, e, true) == s
  {
    LiveIndexed(b, s, e.orderId);
    var i := IndexOf(b, e.orderId);
    if i < |b| {
      LevelCovers(b, s, i);
      PutBackSame(s, e.orderId);
    }
    if e.action == Clear {
      OnlyEmpty(s);
    }
    hide InStep, Insert, Evicted, WellFormed;
  }

  predicate Reuses(b: Book, e: Event) {
    e.action == Add && Effective(e) && Live(b, e.orderId)
  }

  // What an event has to respect for the map book to follow the limit book; the book that
  // does not replace live orders asks in addition that no add reuses a live id.
  predicate Agreeable(b: Book, e: Event) {
    if e.Skipped() then Repeats(b, e) else Regular(b, e)
  }

  predicate Follows(b: Book, e: Event, replaceLive: bool) {
    Agreeable(b, e) && (replaceLive || !Reuses(b, e))
  }

  lemma FollowsInStep(b: Book, s: State, e: Event, replaceLive: bool)
    requires InStep(b, s) && Follows(b, e, replaceLive)
    ensures InStep(Apply(b, e), Step(s, e, replaceLive))
  {
    LiveIndexed(b, s, e.orderId);
    if e.Skipped() {
      RepeatsKeeps(b, s, e);
    } else {
      RegularInStep(b, s, e);
    }
    hide InStep, Repeats, Regular;
  }

  lemma LevelAgreesAt(b: Book, s: State, side: Side, p: i64)
    requires Shows(b, s)
    ensures LevelAgrees(Level(b, Buy, p), s.bids, p) && LevelAgrees(Level(b, Sell, p), s.asks, p)
  {
  }

  // ---------- What showing the same means ----------

  function SideOfMap(s: State, side: Side): Totals {
    if side == Buy then s.bids else s.asks
  }

  lemma SameBest(b: Book, s: State, side: Side, r: Option<i64>)
    requires Shows(b, s) && side != NoSide
    ensures IsFirst(SideOfMap(s, side), side, r) <==> IsBest(b, side, r)
  {
    var m := SideOfMap(s, side);
    forall i | 0 <= i < |b| && b[i].side == side ensures b[i].price in m {
      LevelUpdate(b, i, b[i], side, b[i].price);
      LevelAgreesAt(b, s, side, b[i].price);
    }
    forall p | p in m ensures exists i :: 0 <= i < |b| && b[i].side == side && b[i].price == p {
      LevelAgreesAt(b, s, side, p);
      var i := LevelMember(b, side, p, 0);
    }
  }

  lemma SameVolume(b: Book, s: State, side: Side, p: i64)
    requires Shows(b, s) && side != NoSide
    ensures Volume(b, side, p) == if p in SideOfMap(s, side) then SideOfMap(s, side)[p] else 0
  {
    LevelAgreesAt(b, s, side, p);
  }

  lemma SameEmptiness(b: Book, s: State, side: Side)
    requires Shows(b, s) && side != NoSide
    ensures SideOfMap(s, side) == map[] <==> !HasSide(b, side)
  {
    SameBest(b, s, side, None);
  }

  lemma SameLevels(b: Book, s: State, side: Side, out: seq<(i64, int)>)
    requires Shows(b, s) && side != NoSide
    ensures IsListing(SideOfMap(s, side), side, out) <==> IsLevelList(b, side, out)
  {
    hide Level, Total;
    var m := SideOfMap(s, side);
    forall p: i64 ensures (p in m <==> Level(b, side, p) != []) && (p in m ==> m[p] == Volume(b, side, p)) {
      LevelAgreesAt(b, s, side, p);
    }
  }

  // A book has one best price and one level list per side.
  lemma BestUnique(b: Book, side: Side, r: Option<i64>, r': Option<i64>)
    requires IsBest(b, side, r) && IsBest(b, side, r')
    ensures r == r'
  {
  }

  lemma LevelListUnique(b: Book, side: Side, out: seq<(i64, int)>, out': seq<(i64, int)>)
    requires IsLevelList(b, side, out) && IsLevelList(b, side, out')
    ensures out == out'
  {
    SamePrefix(b, side, out, out', |out|);
    SamePrefix(b, side, out', out, |out'|);
  }

  lemma {:induction false} SamePrefix(b: Book, side: Side, out: seq<(i64, int)>, out': seq<(i64, int)>, n: nat)
    requires IsLevelList(b, side, out) && IsLevelList(b, side, out') && n <= |out|
    ensures n <= |out'| && out[..n] == out'[..n]
  {
    hide IsLevelList;
    if n > 0 {
      SamePrefix(b, side, out, out', n - 1);
      var i := Position(b, side, out, out', n - 1);
      assert forall k :: 0 <= k < n - 1 ==> out[k] == out[..n - 1][k] && out'[k] == out'[..n - 1][k];
      SameAt(b, side, out, out', n - 1);
    }
  }

  // A level listed once is listed in every list of the side, and not earlier than
  // the part that two lists share.
  lemma Position(b: Book, side: Side, out: seq<(i64, int)>, out': seq<(i64, int)>, n: nat) returns (i: nat)
    requires IsLevelList(b, side, out) && IsLevelList(b, side, out') && n < |out| && n <= |out'| && out[..n] ==
        out'[..n]
    ensures n <= i < |out'| && out'[i].0 == out[n].0
  {
    hide Level, Total;
    assert Level(b, side, out[n].0) != [];
    assert forall k :: 0 <= k < n ==> out[k] == out[..n][k] && out'[k] == out'[..n][k];
    i :| 0 <= i < |out'| && out'[i].0 == out[n].0;
  }

  lemma SameAt(b: Book, side: Side, out: seq<(i64, int)>, out': seq<(i64, int)>, n: nat)
    requires IsLevelList(b, side, out) && IsLevelList(b, side, out') && n < |out| && n < |out'| && out[..n] == out'[..n]
    ensures out[n] == out'[n]
  {
    hide Level, Total;
    var i := Position(b, side, out, out', n);
    var j := Position(b, side, out', out, n);
    assert out[n].0 == out'[n].0;
  }

  // Every query gives the same answers on the two books.
  ghost predicate SameAnswers(b: Book, s: State) {
    SameOnSide(b, SideOfMap(s, Buy), Buy) && SameOnSide(b, SideOfMap(s, Sell), Sell)
  }

  ghost predicate SameOnSide(b: Book, m: Totals, side: Side) {
    && (forall r :: IsFirst(m, side, r) <==> IsBest(b, side, r))
    && (forall p: i64 :: Volume(b, side, p) == if p in m then m[p] else 0)
    && (m == map[] <==> !HasSide(b, side))
    && (forall out :: IsListing(m, side, out) <==> IsLevelList(b, side, out))
  }

  // Being shown the same levels is getting the same answers.
  lemma ShowsIsAnswers(b: Book, s: State)
    ensures Shows(b, s) <==> SameAnswers(b, s)
  {
    hide SameOnSide, SideAgrees;
    if Shows(b, s) {
      AnswersOnSide(b, s, Buy);
      AnswersOnSide(b, s, Sell);
    }
    if SameAnswers(b, s) {
      LevelsFromAnswers(b, s.bids, Buy);
      LevelsFromAnswers(b, s.asks, Sell);
    }
  }

  lemma AnswersOnSide(b: Book, s: State, side: Side)
    requires Shows(b, s) && side != NoSide
    ensures SameOnSide(b, SideOfMap(s, side), side)
  {
    hide Shows, IsFirst, IsBest, IsListing, IsLevelList, Volume, HasSide, SideOfMap;
    forall r ensures IsFirst(SideOfMap(s, side), side, r) <==> IsBest(b, side, r) {
      SameBest(b, s, side, r);
    }
    forall p: i64 ensures Volume(b, side, p) == if p in SideOfMap(s, side) then SideOfMap(s, side)[p] else 0 {
      SameVolume(b, s, side, p);
    }
    SameEmptiness(b, s, side);
    forall out ensures IsListing(SideOfMap(s, side), side, out) <==> IsLevelList(b, side, out) {
      SameLevels(b, s, side, out);
    }
  }

  // Two lists of the same levels pin the levels down.
  lemma LevelsFromAnswers(b: Book, m: Totals, side: Side)
    requires SameOnSide(b, m, side)
    ensures SideAgrees(b, side, m)
  {
    hide Level, Total;
    var out := ListingExists(m, side);
    assert IsLevelList(b, side, out);
    forall p: i64 ensures LevelAgrees(Level(b, side, p), m, p) {
      assert Volume(b, side, p) == if p in m then m[p] else 0;
    }
  }

  lemma {:induction false} ListingExists(m: Totals, side: Side) returns (out: seq<(i64, int)>)
    ensures IsListing(m, side, out)
    decreases m.Keys
  {
    if m == map[] {
      out := [];
    } else {
      var p := FirstExists(m.Keys, side);
      var tail := ListingExists(m - {p}, side);
      out := [(p, m[p])] + tail;
      ListingCons(m, side, p, tail);
    }
  }

  lemma ListingCons(m: Totals, side: Side, p: i64, tail: seq<(i64, int)>)
    requires p in m && (forall q :: q in m ==> NoWorse(side, p, q)) && IsListing(m - {p}, side, tail)
    ensures IsListing(m, side, [(p, m[p])] + tail)
  {
    var out := [(p, m[p])] + tail;
    forall q | q in m ensures exists i :: 0 <= i < |out| && out[i].0 == q {
      if q == p {
        assert out[0].0 == q;
      } else {
        assert q in m - {p};
        var i :| 0 <= i < |tail| && tail[i].0 == q;
        assert out[i + 1].0 == q;
      }
    }
    forall i, j | 0 <= i < j < |out| ensures out[i].0 != out[j].0 && NoWorse(side, out[i].0, out[j].0) {
      assert out[j] == tail[j - 1];
      if i > 0 {
        assert out[i] == tail[i - 1];
      }
    }
  }

  lemma {:induction false} FirstExists(keys: set<i64>, side: Side) returns (p: i64)
    requires keys != {}
    ensures p in keys && forall q :: q in keys ==> NoWorse(side, p, q)
  {
    var some :| some in keys;
    p := some;
    var rest := keys - {some};
    if rest != {} {
      var q := FirstExists(rest, side);
      if NoWorse(side, q, some) {
        p := q;
      }
    }
    assert forall q :: q in keys ==> q == some || q in rest;
  }
}
