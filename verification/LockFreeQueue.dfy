// The single-producer single-consumer ring, one step per access to shared memory.
//
// Beside the real fields a state carries unbounded history: what was published
// (pushed), what was freed by a tail store (taken) and handed to the callback
// (delivered), and for each cached index the count it stands for. An acquire
// load may return any value published since that thread's last view; only a
// head load that follows a successful test of closed_ is at least as new as
// what the closing thread had seen.  A load of closed_ may miss the store, but
// not once the thread has read or made it, nor once it has read a tail_ that
// the consumer stored after reading closed_ set.
module LockFreeQueue {
  import opened Masks

  datatype Producer<T> =
    | PIdle
    | PTest(items: seq<T>, batch: bool)
    | PSpin(items: seq<T>, batch: bool)
    | PLoad(items: seq<T>, batch: bool)
    | PWrite(items: seq<T>, done: nat)

  datatype Consumer<T> =
    | CIdle
    | CRefresh
    | CSpin
    | CReload
    | CRecheck
    | CRead
    | CTake(item: T)
    | CGive(item: T)
    | CFalse

  // closed_, with who stored it, what the closer had seen of head_, and who has read it;
  // sawAt counts the items taken when the consumer first did.
  datatype Closing = Closing(
    closed: bool,
    closeView: nat,
    producerClosed: bool,
    otherClosed: bool,
    producerSaw: bool,
    consumerSaw: bool,
    sawAt: nat)

  datatype State<T> = State(
    bits: nat,
    buffer: seq<T>,
    head: nat,
    tailCached: nat,
    tail: nat,
    headCached: nat,
    closing: Closing,
    prod: Producer<T>,
    cons: Consumer<T>,
    pushed: seq<T>,
    taken: seq<T>,
    delivered: seq<T>,
    heads: set<nat>,
    tailView: nat,
    headView: nat)
  {
    function Capacity(): (c: nat)
      ensures c > 0
    {
      Pow2(bits)
    }

    function Masked(x: int): nat {
      And(Wrap(x), Capacity() - 1)
    }

    // The free-slot expression of push_batch.
    function FreeSlots(): nat {
      Masked(tailCached - head - 1 + Capacity())
    }

    function Size(): nat {
      Masked(head - tail)
    }

    predicate Full() {
      Masked(head + 1) == tailCached
    }

    // The producer's next load of closed_ cannot miss the store.
    predicate ProducerKnows() {
      closing.producerClosed || closing.producerSaw || (closing.consumerSaw && closing.sawAt < tailView)
    }
  }

  datatype Step<T> =
    | Push(items: seq<T>, batch: bool, sawClosed: bool)
    | TestRoom
    | SpinClosed(sawClosed: bool)
    | LoadTail(view: nat)
    | WriteSlot
    | Publish
    | ProducerClose
    | OtherClose(view: nat)
    | Pop
    | LoadHead(view: nat)
    | LoadClosed(sawClosed: bool)
    | ReadSlot(leftBehind: T)
    | StoreTail
    | Deliver

  // The slot that item number n of the stream goes through.
  function At<T>(buffer: seq<T>, n: nat): T
    requires buffer != []
  {
    buffer[n % |buffer|]
  }

  // What a load of closed_ may return: false can be stale, but not for a thread that knows.
  predicate MayLoadClosed<T>(s: State<T>, saw: bool, knows: bool) {
    (saw ==> s.closing.closed) && (knows ==> saw)
  }

  predicate Enabled<T(==)>(s: State<T>, step: Step<T>) {
    match step
    case Push(items, batch, saw) =>
      s.prod.PIdle? && (batch || |items| == 1) && MayLoadClosed(s, saw, s.ProducerKnows())
    case TestRoom => s.prod.PTest?
    case SpinClosed(saw) => s.prod.PSpin? && MayLoadClosed(s, saw, s.ProducerKnows())
    case LoadTail(view) => s.prod.PLoad? && s.tailView <= view <= |s.taken|
    case WriteSlot => s.prod.PWrite? && s.prod.done < |s.prod.items| && |s.buffer| == s.Capacity()
    case Publish => s.prod.PWrite? && s.prod.done == |s.prod.items|
    case ProducerClose => s.prod.PIdle?
    case OtherClose(view) => view in s.heads
    case Pop => s.cons.CIdle? || s.cons.CFalse?
    case LoadHead(view) =>
      && (s.cons.CRefresh? || s.cons.CReload? || s.cons.CRecheck?)
      && view in s.heads && s.headView <= view
      && (s.cons.CRecheck? ==> s.closing.closeView <= view)
    case LoadClosed(saw) => s.cons.CSpin? && MayLoadClosed(s, saw, s.closing.consumerSaw)
    case ReadSlot(_) => s.cons.CRead? && s.tail < |s.buffer|
    case StoreTail => s.cons.CTake?
    case Deliver => s.cons.CGive?
  }

  function Next<T(==)>(s: State<T>, step: Step<T>): State<T>
    requires Enabled(s, step)
  {
    match step
    case Push(items, batch, saw) =>
      if saw then s.(closing := s.closing.(producerSaw := true))
      else if items == [] || (batch && |items| >= s.Capacity()) then s
      else s.(prod := PTest(items, batch))
    case TestRoom =>
      if (if s.prod.batch then s.FreeSlots() < |s.prod.items| else s.Full())
      then s.(prod := PSpin(s.prod.items, s.prod.batch))
      else s.(prod := PWrite(s.prod.items, 0))
    case SpinClosed(saw) =>
      if saw then s.(prod := PIdle, closing := s.closing.(producerSaw := true))
      else s.(prod := PLoad(s.prod.items, s.prod.batch))
    case LoadTail(view) =>
      s.(tailCached := view % s.Capacity(), tailView := view,
         prod := PTest(s.prod.items, s.prod.batch))
    case WriteSlot =>
      s.(buffer := s.buffer[s.Masked(s.head + s.prod.done) := s.prod.items[s.prod.done]],
         prod := PWrite(s.prod.items, s.prod.done + 1))
    case Publish =>
      s.(head := s.Masked(s.head + |s.prod.items|), pushed := s.pushed + s.prod.items,
         heads := s.heads + {|s.pushed| + |s.prod.items|}, prod := PIdle)
    case ProducerClose =>
      s.(closing := ClosedWith(s.closing, |s.pushed|).(producerClosed := true))
    case OtherClose(view) =>
      s.(closing := ClosedWith(s.closing, view).(otherClosed := true))
    case Pop =>
      s.(cons := if s.tail == s.headCached then CRefresh else CRead)
    case LoadHead(view) =>
      var n := s.(headCached := view % s.Capacity(), headView := view);
      n.(cons := if n.tail != n.headCached then CRead else if s.cons.CRecheck? then CFalse else CSpin)
    case LoadClosed(saw) =>
      if saw then s.(cons := CRecheck, closing := Seen(s.closing, |s.taken|)) else s.(cons := CReload)
    case ReadSlot(leftBehind) =>
      s.(buffer := s.buffer[s.tail := leftBehind], cons := CTake(s.buffer[s.tail]))
    case StoreTail =>
      s.(tail := s.Masked(s.tail + 1), taken := s.taken + [s.cons.item], cons := CGive(s.cons.item))
    case Deliver =>
      s.(delivered := s.delivered + [s.cons.item], cons := CIdle)
  }

  function ClosedWith(c: Closing, view: nat): Closing {
    c.(closed := true, closeView := if c.closed && c.closeView < view then c.closeView else view)
  }

  function Seen(c: Closing, taken: nat): Closing {
    if c.consumerSaw then c else c.(consumerSaw := true, sawAt := taken)
  }

  const OPEN := Closing(false, 0, false, false, false, false, 0)

  predicate Start<T(==)>(s: State<T>) {
    && s.bits <= 63 && |s.buffer| == s.Capacity()
    && s.head == s.tailCached == s.tail == s.headCached == 0
    && s.closing == OPEN
    && s.prod == PIdle && s.cons == CIdle
    && s.pushed == s.taken == s.delivered == []
    && s.heads == {0} && s.tailView == s.headView == 0
  }

  // The states a run of steps passes through.
  predicate IsRun<T(==)>(run: seq<State<T>>, steps: seq<Step<T>>) {
    && |run| == |steps| + 1
    && forall i :: 0 <= i < |steps| ==> Enabled(run[i], steps[i]) && run[i + 1] == Next(run[i], steps[i])
  }

  // ---------- Invariant ----------

  ghost predicate Indices<T>(s: State<T>) {
    && s.bits <= 63 && |s.buffer| == s.Capacity()
    && s.head == |s.pushed| % s.Capacity()
    && s.tail == |s.taken| % s.Capacity()
    && s.tailCached == s.tailView % s.Capacity()
    && s.headCached == s.headView % s.Capacity()
    && s.tailView <= |s.taken| <= s.headView <= |s.pushed| < s.tailView + s.Capacity()
  }

  ghost predicate HeadsKnown<T>(s: State<T>) {
    && |s.pushed| in s.heads && s.headView in s.heads
    && forall n :: n in s.heads ==> n <= |s.pushed|
  }

  ghost predicate Slots<T>(s: State<T>)
    requires s.buffer != []
  {
    forall n :: |s.taken| <= n < |s.pushed| && !(s.cons.CTake? && n == |s.taken|) ==>
      At(s.buffer, n) == s.pushed[n]
  }

  ghost predicate Written<T>(s: State<T>)
    requires s.buffer != []
  {
    s.prod.PWrite? ==> forall n :: |s.pushed| <= n < |s.pushed| + s.prod.done && n < |s.pushed| + |s.prod.items| ==>
      At(s.buffer, n) == s.prod.items[n - |s.pushed|]
  }

  ghost predicate Reserved<T>(s: State<T>) {
    match s.prod
    case PIdle => true
    case PWrite(items, done) =>
      done <= |items| && items != [] && |s.pushed| + |items| < s.tailView + s.Capacity()
    case _ =>
      s.prod.items != [] && if s.prod.batch then |s.prod.items| < s.Capacity() else |s.prod.items| == 1
  }

  ghost predicate Waiting<T>(s: State<T>) {
    && (s.cons.CSpin? || s.cons.CReload? || s.cons.CRecheck? || s.cons.CFalse? ==> s.headView == |s.taken|)
    && (s.cons.CRecheck? || s.cons.CFalse? ==> s.closing.closed)
    && (s.cons.CFalse? ==> s.closing.closeView <= |s.taken|)
    && (s.cons.CRead? || s.cons.CTake? ==> |s.taken| < s.headView)
    && (s.cons.CTake? ==> |s.taken| < |s.pushed| && s.cons.item == s.pushed[|s.taken|])
  }

  ghost predicate Accounted<T>(s: State<T>) {
    && s.taken == s.delivered + (if s.cons.CGive? then [s.cons.item] else [])
    && s.taken <= s.pushed
  }

  ghost predicate CloseKnown<T>(s: State<T>) {
    && (s.closing.producerClosed ==> s.closing.closed && s.prod.PIdle?)
    && (s.closing.producerSaw ==> s.closing.closed && s.prod.PIdle?)
    && (s.closing.consumerSaw ==> s.closing.closed)
    && (s.closing.closed ==> s.closing.closeView <= |s.pushed|)
    && (s.closing.closed && !s.closing.otherClosed ==> s.closing.producerClosed && s.closing.closeView == |s.pushed|)
  }

  ghost predicate Inv<T>(s: State<T>) {
    Indices(s) && HeadsKnown(s) && Slots(s) && Written(s) && Reserved(s) && Waiting(s) && Accounted(s) && CloseKnown(s)
  }

  // ---------- Index arithmetic ----------

  // Slots less than a capacity apart are different slots.
  lemma SlotsApart(c: nat, a: nat, b: nat)
    requires a < b < a + c
    ensures a % c != b % c
  {
    ModApart(a, b, c);
  }

  // Advancing a masked index agrees with advancing the count behind it.
  lemma Advance<T>(s: State<T>, n: nat, count: nat)
    requires s.bits <= 63
    ensures s.Masked(n % s.Capacity() + count) == (n + count) % s.Capacity()
  {
    WrapMask(n % s.Capacity() + count, s.bits);
    ModAdd(n, count, s.Capacity());
  }

  lemma RingDistance(c: nat, p: nat, v: nat)
    requires v <= p < v + c
    ensures (v % c - p % c - 1 + c) % c == c - 1 - (p - v)
  {
    var e := v % c - p % c;
    assert (e - 1 + c) % c == (e % c + (c - 1)) % c by { ModAdd(e, c - 1, c); }
    assert e % c == (v - p) % c by { ModSub(v, p, c); }
    assert ((v - p) % c + (c - 1)) % c == (v - p + (c - 1)) % c by { ModAdd(v - p, c - 1, c); }
    DivUnique(v - p + (c - 1), c, 0, v - p + (c - 1));
  }

  // The free-slot expression, for a tail view at most a capacity behind.
  lemma FreeSlotsExact<T>(s: State<T>)
    requires Indices(s)
    ensures s.FreeSlots() == s.Capacity() - 1 - (|s.pushed| - s.tailView)
  {
    hide Pow2, And, Wrap;
    WrapMask(s.tailCached - s.head - 1 + s.Capacity(), s.bits);
    RingDistance(s.Capacity(), |s.pushed|, s.tailView);
  }

  lemma FullExact<T>(s: State<T>)
    requires Indices(s)
    ensures s.Full() <==> s.FreeSlots() == 0
  {
    var c := s.Capacity();
    FreeSlotsExact(s);
    Advance(s, |s.pushed|, 1);
    if |s.pushed| + 1 == s.tailView + c {
      ModShift(s.tailView, c, 1);
    } else {
      SlotsApart(c, s.tailView, |s.pushed| + 1);
    }
  }

  // The size observer equals the number of unread items.
  lemma SizeExact<T>(s: State<T>)
    requires Indices(s)
    ensures s.Size() == |s.pushed| - |s.taken|
    ensures s.head == s.tail <==> |s.pushed| == |s.taken|
  {
    hide Pow2, And, Wrap;
    WrapMask(s.head - s.tail, s.bits);
    Between(s.Capacity(), |s.pushed|, |s.taken|);
  }

  lemma Between(c: nat, p: nat, t: nat)
    requires t <= p < t + c
    ensures (p % c - t % c) % c == p - t && (p % c == t % c <==> p == t)
  {
    ModSub(p, t, c);
    DivUnique(p - t, c, 0, p - t);
    if t < p {
      SlotsApart(c, t, p);
    }
  }

  // The consumer's emptiness test on its cached index is exact for its view.
  lemma EmptyTestExact<T>(s: State<T>)
    requires Indices(s)
    ensures s.tail == s.headCached <==> |s.taken| == s.headView
  {
    if |s.taken| < s.headView {
      SlotsApart(s.Capacity(), |s.taken|, s.headView);
    }
  }

  // ---------- Every step keeps the invariant ----------

  lemma StartInv<T>(s: State<T>)
    requires Start(s)
    ensures Inv(s)
  {
  }

  lemma TestRoomKeeps<T>(s: State<T>)
    requires Inv(s) && Enabled(s, TestRoom)
    ensures Inv(Next(s, TestRoom))
  {
    hide Pow2, And, Wrap;
    FreeSlotsExact(s);
    FullExact(s);
  }

  lemma LoadTailKeeps<T>(s: State<T>, view: nat)
    requires Inv(s) && Enabled(s, LoadTail(view))
    ensures Inv(Next(s, LoadTail(view)))
  {
  }

  lemma WriteSlotKeeps<T>(s: State<T>)
    requires Inv(s) && Enabled(s, WriteSlot)
    ensures Inv(Next(s, WriteSlot))
  {
    hide Pow2, And, Wrap;
    var c, here, t := s.Capacity(), |s.pushed| + s.prod.done, Next(s, WriteSlot);
    Advance(s, |s.pushed|, s.prod.done);
    forall n | |s.taken| <= n < here
      ensures At(t.buffer, n) == At(s.buffer, n)
    {
      SlotsApart(c, n, here);
    }
  }

  lemma PublishKeeps<T>(s: State<T>)
    requires Inv(s) && Enabled(s, Publish)
    ensures Inv(Next(s, Publish))
  {
    hide Pow2, And, Wrap;
    var t := Next(s, Publish);
    Advance(s, |s.pushed|, |s.prod.items|);
    assert Slots(t) by {
      forall n | |s.taken| <= n < |t.pushed| && !(s.cons.CTake? && n == |s.taken|)
        ensures At(t.buffer, n) == t.pushed[n]
      {
        assert At(t.buffer, n) == At(s.buffer, n);
      }
    }
  }

  lemma CallKeeps<T>(s: State<T>, step: Step<T>)
    requires Inv(s) && Enabled(s, step) && (step.Push? || step.SpinClosed?)
    ensures Inv(Next(s, step))
  {
    hide Pow2, And, Wrap;
  }

  lemma LoadClosedKeeps<T>(s: State<T>, saw: bool)
    requires Inv(s) && Enabled(s, LoadClosed(saw))
    ensures Inv(Next(s, LoadClosed(saw)))
  {
    hide Pow2, And, Wrap;
  }

  lemma DeliverKeeps<T>(s: State<T>)
    requires Inv(s) && Enabled(s, Deliver)
    ensures Inv(Next(s, Deliver))
  {
    hide Pow2, And, Wrap;
  }

  lemma CloseKeeps<T>(s: State<T>, step: Step<T>)
    requires Inv(s) && Enabled(s, step) && (step.ProducerClose? || step.OtherClose?)
    ensures Inv(Next(s, step))
  {
    hide Pow2, And, Wrap;
  }

  lemma PopKeeps<T>(s: State<T>)
    requires Inv(s) && Enabled(s, Pop)
    ensures Inv(Next(s, Pop))
  {
    hide Pow2, And, Wrap;
    EmptyTestExact(s);
  }

  lemma LoadHeadKeeps<T>(s: State<T>, view: nat)
    requires Inv(s) && Enabled(s, LoadHead(view))
    ensures Inv(Next(s, LoadHead(view)))
  {
    hide Pow2, And, Wrap;
    EmptyTestExact(s.(headCached := view % s.Capacity(), headView := view));
  }

  lemma ReadSlotKeeps<T>(s: State<T>, leftBehind: T)
    requires Inv(s) && Enabled(s, ReadSlot(leftBehind))
    ensures Inv(Next(s, ReadSlot(leftBehind)))
  {
    hide Pow2, And, Wrap;
    var c, t := s.Capacity(), Next(s, ReadSlot(leftBehind));
    assert At(s.buffer, |s.taken|) == s.pushed[|s.taken|];
    forall n | |s.taken| < n < |s.taken| + c
      ensures At(t.buffer, n) == At(s.buffer, n)
    {
      SlotsApart(c, |s.taken|, n);
    }
  }

  lemma StoreTailKeeps<T>(s: State<T>)
    requires Inv(s) && Enabled(s, StoreTail)
    ensures Inv(Next(s, StoreTail))
  {
    hide Pow2, And, Wrap;
    var t := Next(s, StoreTail);
    Advance(s, |s.taken|, 1);
    assert Slots(t) by {
      forall n | |t.taken| <= n < |t.pushed|
        ensures At(t.buffer, n) == t.pushed[n]
      {
        assert At(t.buffer, n) == At(s.buffer, n);
      }
    }
  }

  lemma StepKeeps<T>(s: State<T>, step: Step<T>)
    requires Inv(s) && Enabled(s, step)
    ensures Inv(Next(s, step))
  {
    hide Pow2, And, Wrap, Inv, Next;
    match step
    case TestRoom => TestRoomKeeps(s);
    case LoadTail(view) => LoadTailKeeps(s, view);
    case WriteSlot => WriteSlotKeeps(s);
    case Publish => PublishKeeps(s);
    case Pop => PopKeeps(s);
    case LoadHead(view) => LoadHeadKeeps(s, view);
    case ReadSlot(leftBehind) => ReadSlotKeeps(s, leftBehind);
    case StoreTail => StoreTailKeeps(s);
    case LoadClosed(saw) => LoadClosedKeeps(s, saw);
    case Deliver => DeliverKeeps(s);
    case ProducerClose => CloseKeeps(s, step);
    case OtherClose(_) => CloseKeeps(s, step);
    case _ => CallKeeps(s, step);
  }
}
