// Which shard sees which events, and why two caches per event agree.
module ShardedRouter {
  import opened MarketData
  import opened SimpleRouter

  datatype Target = Unresolved | ToShard(index: nat)

  // The instrument the dispatcher resolves, 0 when it finds none.
  function Resolved(cache: map<u64, u32>, e: Event): u32 {
    if e.instrumentId != 0 then e.instrumentId
    else if e.orderId != 0 then Lookup(cache, e.orderId)
    else 0
  }

  function TargetOf(cache: map<u64, u32>, e: Event, shards: nat): (t: Target)
    requires shards > 0
    ensures t.ToShard? ==> t.index < shards
  {
    var i := Resolved(cache, e);
    if i == 0 && e.orderId != 0 then Unresolved else ToShard(i % shards)
  }

  // The dispatcher's own cache.
  function CacheOf(es: seq<Event>): map<u64, u32> {
    if es == [] then map[] else Learned(CacheOf(es[..|es| - 1]), es[|es| - 1])
  }

  // The events handed to one shard.
  function Dispatched(es: seq<Event>, shards: nat, s: nat): seq<Event>
    requires shards > 0
  {
    if es == [] then []
    else
      var e := es[|es| - 1];
      var before := Dispatched(es[..|es| - 1], shards, s);
      if TargetOf(CacheOf(es), e, shards) == ToShard(s) then before + [e] else before
  }

  lemma {:induction false} DispatcherIsOwner(es: seq<Event>, id: u64)
    ensures Lookup(CacheOf(es), id) == Owner(es, id)
  {
    if es != [] {
      DispatcherIsOwner(es[..|es| - 1], id);
    }
  }

  // The shard that an order's instrument belongs to resolves the order as the dispatcher does.
  lemma {:induction false} CachesAgree(es: seq<Event>, shards: nat, id: u64)
    requires shards > 0 && Owner(es, id) != 0
    ensures Owner(Dispatched(es, shards, Owner(es, id) % shards), id) == Owner(es, id)
  {
    NoOwner(es);
    if es != [] {
      var before, e := es[..|es| - 1], es[|es| - 1];
      var s := Owner(es, id) % shards;
      var mine := Dispatched(es, shards, s);
      if TargetOf(CacheOf(es), e, shards) == ToShard(s) {
        assert mine[..|mine| - 1] == Dispatched(before, shards, s) && mine[|mine| - 1] == e;
      }
      if e.orderId != id || e.instrumentId == 0 {
        CachesAgree(before, shards, id);
      }
    }
  }

  // An instrument's book on its own shard has seen what the sequential router's book has seen.
  lemma {:induction false} ShardBook(es: seq<Event>, shards: nat, i: u32)
    requires shards > 0 && i != 0
    ensures Owned(Dispatched(es, shards, i % shards), i) == Owned(es, i)
  {
    if es != [] {
      var before, e := es[..|es| - 1], es[|es| - 1];
      ShardBook(before, shards, i);
      LastEvent(es, shards, i % shards, i);
      if e.orderId != 0 && Owner(es, e.orderId) == i {
        DispatcherIsOwner(es, e.orderId);
        CachesAgree(es, shards, e.orderId);
      }
    }
  }

  // What the last event adds to a shard's share of an instrument.
  lemma LastEvent(es: seq<Event>, shards: nat, s: nat, i: u32)
    requires shards > 0 && i != 0 && es != []
    ensures var before, e := es[..|es| - 1], es[|es| - 1];
      Owned(Dispatched(es, shards, s), i) ==
        if e.orderId != 0 && s == i % shards && Owner(es, e.orderId) == i then Owned(Dispatched(before, shards, s),
            i) + [e]
        else Owned(Dispatched(before, shards, s), i)
  {
    var before, e := es[..|es| - 1], es[|es| - 1];
    var mine := Dispatched(es, shards, s);
    if TargetOf(CacheOf(es), e, shards) == ToShard(s) {
      assert mine[..|mine| - 1] == Dispatched(before, shards, s) && mine[|mine| - 1] == e;
      if e.orderId != 0 {
        ResolvedIsOwner(es);
        CachesAgree(es, shards, e.orderId);
      }
    } else if e.orderId != 0 && Owner(es, e.orderId) == i {
      ResolvedIsOwner(es);
    }
  }

  lemma ResolvedIsOwner(es: seq<Event>)
    requires es != [] && es[|es| - 1].orderId != 0
    ensures Resolved(CacheOf(es), es[|es| - 1]) == Owner(es, es[|es| - 1].orderId)
  {
    DispatcherIsOwner(es, es[|es| - 1].orderId);
  }

  // No other shard ever touches the instrument.
  lemma {:induction false} OtherShards(es: seq<Event>, shards: nat, s: nat, i: u32)
    requires shards > 0 && i != 0 && s != i % shards
    ensures Owned(Dispatched(es, shards, s), i) == []
  {
    if es != [] {
      OtherShards(es[..|es| - 1], shards, s, i);
      LastEvent(es, shards, s, i);
    }
  }

  // ---------- Queues, workers and the calling thread ----------

  datatype Item = Apply(event: Event) | Promise(sync: nat)

  // One shard: its queue, the item its worker has popped but not visited yet, its router,
  // the promises it has set, and the events its router has applied.
  datatype Shard = Shard(
    queue: seq<Item>,
    queueClosed: bool,
    hand: seq<Item>,
    router: Router,
    fulfilled: set<nat>,
    exited: bool,
    seen: seq<Event>)

  // Where the calling thread stands inside sync_all or close.
  datatype Caller = Idle | Pushing(sync: nat, k: nat) | Awaiting(sync: nat, k: nat) | Closing(k: nat) | Joining(k: nat)

  // accepted holds the events applied before the router was closed.
  datatype System = System(
    cache: map<u64, u32>,
    shards: seq<Shard>,
    closed: bool,
    syncs: nat,
    caller: Caller,
    accepted: seq<Event>)

  datatype Step = CallApply(event: Event) | CallSync | CallClose | Advance | Worker(s: nat)

  const NEW_SHARD := Shard([], false, [], NEW_ROUTER, {}, false, [])

  function NewSystem(shards: nat): System {
    System(map[], seq(shards, _ => NEW_SHARD), false, 0, Idle, [])
  }

  function Pushed(sh: Shard, item: Item): Shard {
    sh.(queue := sh.queue + [item])
  }

  predicate CanWork(sh: Shard) {
    sh.hand != [] || sh.queue != [] || (sh.queueClosed && !sh.exited)
  }

  // The worker visits the item in its hand, pops the next one, or leaves its loop.
  function Work(sh: Shard): Shard {
    if sh.hand != [] then
      match sh.hand[0]
      case Apply(e) => sh.(hand := [], router := Route(sh.router, e), seen := sh.seen + [e])
      case Promise(n) => sh.(hand := [], fulfilled := sh.fulfilled + {n})
    else if sh.queue != [] then sh.(hand := [sh.queue[0]], queue := sh.queue[1..])
    else sh.(exited := true)
  }

  predicate Enabled(y: System, step: Step) {
    match step
    case CallApply(_) => y.caller.Idle?
    case CallSync => y.caller.Idle?
    case CallClose => y.caller.Idle?
    case Worker(s) => s < |y.shards| && CanWork(y.shards[s])
    case Advance =>
      (match y.caller
       case Idle => false
       case Pushing(_, _) => true
       case Awaiting(n, k) => k < |y.shards| ==> n in y.shards[k].fulfilled
       case Closing(_) => true
       case Joining(k) => k < |y.shards| ==> y.shards[k].exited)
  }

  function Next(y: System, step: Step): System
    requires y.shards != [] && Enabled(y, step)
  {
    match step
    case CallApply(e) => Dispatch(y, e)
    case CallSync => if y.closed then y else y.(caller := Pushing(y.syncs, 0), syncs := y.syncs + 1)
    case CallClose => if y.closed then y else y.(closed := true, caller := Closing(0))
    case Worker(s) => y.(shards := y.shards[s := Work(y.shards[s])])
    case Advance =>
      (match y.caller
       case Idle => y
       case Pushing(n, k) =>
         if k < |y.shards| then y.(shards := y.shards[k := Pushed(y.shards[k], Promise(n))], caller := Pushing(n,
             k + 1))
         else y.(caller := Awaiting(n, 0))
       case Awaiting(n, k) => y.(caller := if k < |y.shards| then Awaiting(n, k + 1) else Idle)
       case Closing(k) =>
         if k < |y.shards| then y.(shards := y.shards[k := y.shards[k].(queueClosed := true)], caller := Closing(k + 1))
         else y.(caller := Joining(0))
       case Joining(k) => y.(caller := if k < |y.shards| then Joining(k + 1) else Idle))
  }

  // Applying to a closed router teaches the cache and then throws.
  function Dispatch(y: System, e: Event): System
    requires y.shards != []
  {
    var cache := Learned(y.cache, e);
    var accepted := if y.closed then y.accepted else y.accepted + [e];
    match TargetOf(cache, e, |y.shards|)
    case Unresolved => y.(cache := cache, accepted := accepted)
    case ToShard(s) =>
      if y.shards[s].queueClosed then y.(cache := cache)
      else y.(cache := cache, accepted := accepted, shards := y.shards[s := Pushed(y.shards[s], Apply(e))])
  }

  // ---------- Invariant ----------

  function Line(sh: Shard): seq<Item> {
    sh.hand + sh.queue
  }

  function Events(line: seq<Item>): seq<Event> {
    if line == [] then []
    else if line[0].Apply? then [line[0].event] + Events(line[1..])
    else Events(line[1..])
  }

  predicate Clean(line: seq<Item>) {
    forall i :: 0 <= i < |line| ==> line[i].Apply?
  }

  // The promise of a sync is the last thing in line until the worker sets it.
  predicate Barrier(sh: Shard, n: nat) {
    if n in sh.fulfilled then Line(sh) == []
    else LastIs(Line(sh), n)
  }

  predicate LastIs(line: seq<Item>, n: nat) {
    && line != [] && line[|line| - 1] == Promise(n)
    && forall i :: 0 <= i < |line| - 1 ==> line[i].Apply?
  }

  ghost predicate ShardOk(sh: Shard, share: seq<Event>, syncs: nat) {
    && sh.seen + Events(Line(sh)) == share
    && sh.router == RunRouter(sh.seen)
    && |sh.hand| <= 1
    && (sh.exited ==> sh.queueClosed && Line(sh) == [])
    && forall n :: n in sh.fulfilled ==> n < syncs
  }

  // How far the calling thread has got with shard number s.
  predicate InStep(y: System, s: nat)
    requires s < |y.shards|
  {
    var sh := y.shards[s];
    match y.caller
    case Idle => Clean(Line(sh)) && sh.queueClosed == y.closed
    case Pushing(n, k) =>
      !sh.queueClosed && n + 1 == y.syncs && (if s < k then Barrier(sh, n) else Clean(Line(sh)) && n !in sh.fulfilled)
    case Awaiting(n, k) =>
      !sh.queueClosed && n + 1 == y.syncs && Barrier(sh, n) && (s < k ==> n in sh.fulfilled)
    case Closing(k) => Clean(Line(sh)) && sh.queueClosed == (s < k)
    case Joining(k) => Clean(Line(sh)) && sh.queueClosed && (s < k ==> sh.exited)
  }

  ghost predicate Inv(y: System) {
    && y.shards != []
    && (!y.closed ==> y.cache == CacheOf(y.accepted))
    && (y.closed ==> y.caller.Idle? || y.caller.Closing? || y.caller.Joining?)
    && (!y.closed ==> y.caller.Idle? || y.caller.Pushing? || y.caller.Awaiting?)
    && forall s :: 0 <= s < |y.shards| ==>
         ShardOk(y.shards[s], Dispatched(y.accepted, |y.shards|, s), y.syncs) && InStep(y, s)
  }

  // ---------- Every step keeps the invariant ----------

  lemma {:induction false} EventsAppend(a: seq<Item>, b: seq<Item>)
    ensures Events(a + b) == Events(a) + Events(b)
  {
    if a == [] {
      assert a + b == b;
    } else {
      assert (a + b)[0] == a[0] && (a + b)[1..] == a[1..] + b;
      EventsAppend(a[1..], b);
      if a[0].Apply? {
        assert [a[0].event] + (Events(a[1..]) + Events(b)) == [a[0].event] + Events(a[1..]) + Events(b);
      }
    }
  }

  // Popping moves an item from the queue to the hand and leaves the line as it is.
  lemma PopLine(sh: Shard)
    requires sh.hand == [] && sh.queue != []
    ensures Line(Work(sh)) == Line(sh)
  {
    assert [sh.queue[0]] + sh.queue[1..] == sh.queue;
  }

  lemma VisitEvent(sh: Shard, share: seq<Event>, syncs: nat)
    requires ShardOk(sh, share, syncs) && sh.hand != [] && sh.hand[0].Apply?
    ensures ShardOk(Work(sh), share, syncs)
  {
    var e := sh.hand[0].event;
    assert Line(sh)[0] == sh.hand[0] && Line(sh)[1..] == Line(Work(sh));
    assert sh.seen + ([e] + Events(Line(Work(sh)))) == sh.seen + [e] + Events(Line(Work(sh)));
    assert (sh.seen + [e])[..|sh.seen|] == sh.seen;
  }

  lemma VisitPromise(sh: Shard, share: seq<Event>, syncs: nat)
    requires ShardOk(sh, share, syncs) && sh.hand != [] && sh.hand[0].Promise? && sh.hand[0].sync < syncs
    ensures ShardOk(Work(sh), share, syncs)
  {
    assert Line(sh)[0] == sh.hand[0] && Line(sh)[1..] == Line(Work(sh));
  }

  lemma VisitLine(sh: Shard, n: nat)
    requires |sh.hand| == 1
    ensures Clean(Line(sh)) ==> sh.hand[0].Apply? && Clean(Line(Work(sh))) && Work(sh).fulfilled == sh.fulfilled
    ensures Barrier(sh, n) ==> Barrier(Work(sh), n) && (sh.hand[0].Promise? ==> sh.hand[0].sync == n)
  {
    assert Line(sh) == [sh.hand[0]] + sh.queue;
    assert Line(Work(sh)) == sh.queue;
    FirstOfLine(sh.hand[0], sh.queue, n);
    hide Line, LastIs, Clean;
  }

  lemma FirstOfLine(item: Item, rest: seq<Item>, n: nat)
    ensures [item] + rest != []
    ensures Clean([item] + rest) ==> item.Apply? && Clean(rest)
    ensures LastIs([item] + rest, n) ==> if item.Apply? then LastIs(rest, n) else item.sync == n && rest == []
  {
    var line := [item] + rest;
    assert line[0] == item && line[1..] == rest;
  }

  lemma WorkKeeps(sh: Shard, share: seq<Event>, syncs: nat, n: nat)
    requires ShardOk(sh, share, syncs) && CanWork(sh)
    requires Clean(Line(sh)) || (Barrier(sh, n) && n < syncs)
    ensures ShardOk(Work(sh), share, syncs)
    ensures Clean(Line(sh)) ==> Clean(Line(Work(sh))) && Work(sh).fulfilled == sh.fulfilled
    ensures Barrier(sh, n) ==> Barrier(Work(sh), n)
    ensures sh.fulfilled <= Work(sh).fulfilled && (sh.exited ==> Work(sh).exited) && Work(sh).queueClosed ==
        sh.queueClosed
  {
    if sh.hand != [] {
      VisitLine(sh, n);
      if sh.hand[0].Apply? {
        VisitEvent(sh, share, syncs);
      } else {
        VisitPromise(sh, share, syncs);
      }
    } else if sh.queue != [] {
      PopLine(sh);
    }
  }

  lemma WorkerKeeps(y: System, s: nat)
    requires Inv(y) && Enabled(y, Worker(s))
    ensures Inv(Next(y, Worker(s)))
  {
    hide ShardOk, Clean, Barrier, Line, Work, CanWork, Dispatched, CacheOf;
    var n := if y.caller.Pushing? || y.caller.Awaiting? then y.caller.sync else 0;
    WorkKeeps(y.shards[s], Dispatched(y.accepted, |y.shards|, s), y.syncs, n);
  }

  lemma PushKeeps(sh: Shard, share: seq<Event>, syncs: nat, item: Item)
    requires ShardOk(sh, share, syncs) && !sh.queueClosed
    ensures ShardOk(Pushed(sh, item), if item.Apply? then share + [item.event] else share, syncs)
    ensures Line(Pushed(sh, item)) == Line(sh) + [item]
    ensures Clean(Line(sh)) && item.Promise? && item.sync !in sh.fulfilled ==> Barrier(Pushed(sh, item), item.sync)
  {
    EventsAppend(Line(sh), [item]);
    assert sh.hand + (sh.queue + [item]) == Line(sh) + [item];
    if item.Apply? {
      assert Events([item]) == [item.event];
      assert sh.seen + (Events(Line(sh)) + [item.event]) == share + [item.event];
    } else {
      assert Events([item]) == [];
    }
  }

  lemma DispatchedMore(es: seq<Event>, e: Event, shards: nat, s: nat)
    requires shards > 0
    ensures CacheOf(es + [e]) == Learned(CacheOf(es), e)
    ensures Dispatched(es + [e], shards, s) ==
      if TargetOf(CacheOf(es + [e]), e, shards) == ToShard(s) then Dispatched(es, shards,
          s) + [e] else Dispatched(es, shards, s)
  {
    assert (es + [e])[..|es|] == es;
  }

  lemma ApplyKeeps(y: System, e: Event)
    requires Inv(y) && Enabled(y, CallApply(e))
    ensures Inv(Next(y, CallApply(e)))
  {
    hide ShardOk, Line, Work, Dispatched, CacheOf, TargetOf, Learned;
    var t := TargetOf(Learned(y.cache, e), e, |y.shards|);
    assert t.ToShard? ==> t.index < |y.shards|;
    if !y.closed {
      forall s | 0 <= s < |y.shards|
        ensures CacheOf(y.accepted + [e]) == Learned(CacheOf(y.accepted), e)
        ensures Dispatched(y.accepted + [e], |y.shards|, s) ==
          if t == ToShard(s) then Dispatched(y.accepted, |y.shards|, s) + [e] else Dispatched(y.accepted, |y.shards|, s)
      {
        DispatchedMore(y.accepted, e, |y.shards|, s);
      }
      DispatchedMore(y.accepted, e, |y.shards|, 0);
      if t.ToShard? {
        PushKeeps(y.shards[t.index], Dispatched(y.accepted, |y.shards|, t.index), y.syncs, Apply(e));
      }
    }
  }

  lemma CallKeeps(y: System, step: Step)
    requires Inv(y) && Enabled(y, step) && (step.CallSync? || step.CallClose?)
    ensures Inv(Next(y, step))
  {
    hide Clean, Line, Barrier, Dispatched, CacheOf;
  }

  lemma EmptyIsClean(sh: Shard, n: nat)
    requires Barrier(sh, n) && n in sh.fulfilled
    ensures Clean(Line(sh))
  {
  }

  lemma CloseQueueKeeps(sh: Shard, share: seq<Event>, syncs: nat)
    requires ShardOk(sh, share, syncs)
    ensures ShardOk(sh.(queueClosed := true), share, syncs) && Line(sh.(queueClosed := true)) == Line(sh)
  {
  }

  lemma AdvanceKeeps(y: System)
    requires Inv(y) && Enabled(y, Advance)
    ensures Inv(Next(y, Advance))
  {
    hide ShardOk, Clean, Line, Barrier, Dispatched, CacheOf;
    match y.caller
    case Pushing(n, k) =>
      if k < |y.shards| {
        PushKeeps(y.shards[k], Dispatched(y.accepted, |y.shards|, k), y.syncs, Promise(n));
      }
    case Awaiting(n, k) =>
      forall s | 0 <= s < |y.shards| && n in y.shards[s].fulfilled
        ensures Clean(Line(y.shards[s]))
      {
        EmptyIsClean(y.shards[s], n);
      }
    case Closing(k) =>
      if k < |y.shards| {
        CloseQueueKeeps(y.shards[k], Dispatched(y.accepted, |y.shards|, k), y.syncs);
      }
    case Joining(_) =>
  }

  lemma StepKeeps(y: System, step: Step)
    requires Inv(y) && Enabled(y, step)
    ensures Inv(Next(y, step))
  {
    hide Inv, Enabled, Next;
    match step
    case CallApply(e) => ApplyKeeps(y, e);
    case CallSync => CallKeeps(y, step);
    case CallClose => CallKeeps(y, step);
    case Advance => AdvanceKeeps(y);
    case Worker(s) => WorkerKeeps(y, s);
  }

  // ---------- Every schedule ----------

  predicate IsRun(run: seq<System>, steps: seq<Step>, shards: nat) {
    && |run| == |steps| + 1 && shards > 0
    && run[0] == NewSystem(shards)
    && (forall i :: 0 <= i < |run| ==> |run[i].shards| == shards)
    && forall i :: 0 <= i < |steps| ==> Enabled(run[i], steps[i]) && run[i + 1] == Next(run[i], steps[i])
  }

  lemma {:induction false} RunInv(run: seq<System>, steps: seq<Step>, shards: nat, i: nat)
    requires IsRun(run, steps, shards) && i < |run|
    ensures Inv(run[i])
  {
    if i == 0 {
      NewInv(shards);
    } else {
      hide Inv, Enabled, Next;
      RunInv(run, steps, shards, i - 1);
      StepKeeps(run[i - 1], steps[i - 1]);
    }
  }

  lemma NewInv(shards: nat)
    requires shards > 0
    ensures Inv(NewSystem(shards))
  {
  }

  // Every shard has applied its whole share of the stream and no other shard has any of it.
  ghost predicate MatchesSequential(y: System) {
    forall i: u32, s: nat :: i != 0 && s < |y.shards| ==> BookMatches(y, i, s)
  }

  predicate BookMatches(y: System, i: u32, s: nat)
    requires s < |y.shards|
  {
    Book(y.shards[s].router, i) == if s == i % |y.shards| then Book(RunRouter(y.accepted), i) else []
  }

  lemma AllSeen(sh: Shard, share: seq<Event>, syncs: nat)
    requires ShardOk(sh, share, syncs) && Line(sh) == []
    ensures sh.seen == share
  {
    assert sh.seen + [] == sh.seen;
  }

  lemma DrainedMatches(y: System)
    requires Inv(y) && forall s :: 0 <= s < |y.shards| ==> Line(y.shards[s]) == []
    ensures MatchesSequential(y)
  {
    hide InStep, Dispatched, Owned, CacheOf;
    forall i: u32, s: nat | i != 0 && s < |y.shards|
      ensures BookMatches(y, i, s)
    {
      AllSeen(y.shards[s], Dispatched(y.accepted, |y.shards|, s), y.syncs);
      BookIsOwned(y.shards[s].seen, i);
      BookIsOwned(y.accepted, i);
      if s == i % |y.shards| {
        ShardBook(y.accepted, |y.shards|, i);
      } else {
        OtherShards(y.accepted, |y.shards|, s, i);
      }
    }
  }

  predicate SyncDone(y: System) {
    y.caller.Awaiting? && y.caller.k >= |y.shards|
  }

  predicate CloseDone(y: System) {
    y.caller.Joining? && y.caller.k >= |y.shards|
  }

  // Whenever sync_all or close is about to return, under any schedule of the workers, every
  // instrument's book is the one the sequential router builds from the same events.
  lemma ShardedRefinesSimple(run: seq<System>, steps: seq<Step>, shards: nat, i: nat)
    requires IsRun(run, steps, shards) && i < |run| && (SyncDone(run[i]) || CloseDone(run[i]))
    ensures MatchesSequential(run[i])
  {
    var y := run[i];
    RunInv(run, steps, shards, i);
    forall s | 0 <= s < |y.shards|
      ensures Line(y.shards[s]) == []
    {
      assert InStep(y, s);
    }
    DrainedMatches(y);
  }

  // The events without an order id that name an instrument of shard s, or none at all for s = 0.
  function NamelessOf(es: seq<Event>, shards: nat, s: nat): seq<Event>
    requires shards > 0
  {
    if es == [] then []
    else
      var e := es[|es| - 1];
      NamelessOf(es[..|es| - 1], shards, s) + if e.orderId == 0 && e.instrumentId % shards == s then [e] else []
  }

  lemma {:induction false} NamelessShare(es: seq<Event>, shards: nat, s: nat)
    requires shards > 0
    ensures Nameless(Dispatched(es, shards, s)) == NamelessOf(es, shards, s)
  {
    if es != [] {
      var before, e := es[..|es| - 1], es[|es| - 1];
      var mine := Dispatched(es, shards, s);
      NamelessShare(before, shards, s);
      assert NamelessOf(before, shards, s) + [] == NamelessOf(before, shards, s);
      if TargetOf(CacheOf(es), e, shards) == ToShard(s) {
        assert mine[..|mine| - 1] == Dispatched(before, shards, s) && mine[|mine| - 1] == e;
      }
    }
  }

  // At the same moments, book 0 of each shard has the events without an order id that the
  // sequential router puts into its one book 0, divided among the shards by instrument.
  lemma BookZeroDivided(run: seq<System>, steps: seq<Step>, shards: nat, i: nat, s: nat)
    requires IsRun(run, steps, shards) && i < |run| && (SyncDone(run[i]) || CloseDone(run[i])) && s < |run[i].shards|
    ensures Book(run[i].shards[s].router, 0) == NamelessOf(run[i].accepted, |run[i].shards|, s)
    ensures Book(RunRouter(run[i].accepted), 0) == Nameless(run[i].accepted)
  {
    var y := run[i];
    RunInv(run, steps, shards, i);
    assert InStep(y, s) && Line(y.shards[s]) == [];
    AllSeen(y.shards[s], Dispatched(y.accepted, |y.shards|, s), y.syncs);
    hide InStep, Dispatched, Nameless, NamelessOf, RunRouter, CacheOf;
    BookZero(y.shards[s].seen);
    BookZero(y.accepted);
    NamelessShare(y.accepted, |y.shards|, s);
  }

  // Until close is called no event is refused; afterwards none is accepted.
  lemma AcceptedUntilClosed(run: seq<System>, steps: seq<Step>, shards: nat, i: nat)
    requires IsRun(run, steps, shards) && i < |steps| && steps[i].CallApply?
    ensures run[i + 1].accepted == if run[i].closed then run[i].accepted else run[i].accepted + [steps[i].event]
  {
    var y := run[i];
    RunInv(run, steps, shards, i);
    assert forall s :: 0 <= s < |y.shards| ==> InStep(y, s);
  }

  // ---------- sync_all and close return ----------

  function Burden(sh: Shard): nat {
    2 * |sh.queue| + |sh.hand| + (if sh.exited then 0 else 1)
  }

  function Burdens(shards: seq<Shard>): nat {
    if shards == [] then 0 else Burden(shards[0]) + Burdens(shards[1..])
  }

  lemma {:induction false} BurdensUpdate(shards: seq<Shard>, s: nat, sh: Shard)
    requires s < |shards|
    ensures Burdens(shards[s := sh]) == Burdens(shards) - Burden(shards[s]) + Burden(sh)
  {
    if s == 0 {
      assert shards[s := sh][1..] == shards[1..];
    } else {
      BurdensUpdate(shards[1..], s - 1, sh);
      assert shards[s := sh][1..] == shards[1..][s - 1 := sh];
    }
  }

  function Rest(y: System, k: nat): nat {
    if k < |y.shards| then |y.shards| - k else 0
  }

  // What is left of the current call and of the items in line.
  function Remaining(y: System): nat {
    Burdens(y.shards) +
    match y.caller
    case Idle => 0
    case Pushing(_, k) => 3 * Rest(y, k) + |y.shards| + 2
    case Awaiting(_, k) => Rest(y, k) + 1
    case Closing(k) => Rest(y, k) + |y.shards| + 2
    case Joining(k) => Rest(y, k) + 1
  }

  // Inside a call some thread can always move, and every move brings the return closer.
  lemma CallReturns(run: seq<System>, steps: seq<Step>, shards: nat, i: nat)
    requires IsRun(run, steps, shards) && i < |run|
    ensures !run[i].caller.Idle? ==> exists step: Step :: (step.Advance? || step.Worker?) && Enabled(run[i], step)
    ensures i < |steps| && (steps[i].Advance? || steps[i].Worker?) ==> Remaining(run[i + 1]) < Remaining(run[i])
  {
    RunInv(run, steps, shards, i);
    if !run[i].caller.Idle? && !Enabled(run[i], Advance) {
      assert InStep(run[i], run[i].caller.k);
      assert Enabled(run[i], Worker(run[i].caller.k));
    }
    if i < |steps| && (steps[i].Advance? || steps[i].Worker?) {
      MoveShortens(run[i], steps[i]);
    }
  }

  lemma WorkShortens(sh: Shard)
    requires CanWork(sh) && |sh.hand| <= 1
    ensures Burden(Work(sh)) < Burden(sh)
  {
  }

  lemma MoveShortens(y: System, step: Step)
    requires Inv(y) && Enabled(y, step) && (step.Advance? || step.Worker?)
    ensures Remaining(Next(y, step)) < Remaining(y)
  {
    hide ShardOk, InStep, CacheOf, Dispatched;
    match step
    case Worker(s) =>
      assert |y.shards[s].hand| <= 1 by { ShortHand(y, s); }
      hide Inv;
      WorkShortens(y.shards[s]);
      hide Work, CanWork, Burden;
      BurdensUpdate(y.shards, s, Work(y.shards[s]));
    case Advance =>
      hide Inv;
      match y.caller
      case Pushing(n, k) =>
        if k < |y.shards| {
          BurdensUpdate(y.shards, k, Pushed(y.shards[k], Promise(n)));
        }
      case Closing(k) =>
        if k < |y.shards| {
          BurdensUpdate(y.shards, k, y.shards[k].(queueClosed := true));
        }
      case _ =>
  }

  lemma ShortHand(y: System, s: nat)
    requires Inv(y) && s < |y.shards|
    ensures |y.shards[s].hand| <= 1
  {
    assert ShardOk(y.shards[s], Dispatched(y.accepted, |y.shards|, s), y.syncs);
  }
}
