// What the ring promises over whole runs, for every interleaving and every staleness of the cached indices.
module RingTheorems {
  import opened Masks
  import opened LockFreeQueue

  // ---------- Safety over runs ----------

  lemma {:induction false} RunInv<T>(run: seq<State<T>>, steps: seq<Step<T>>, i: nat)
    requires IsRun(run, steps) && Start(run[0]) && i < |run|
    ensures Inv(run[i])
  {
    hide Inv, Enabled, Next;
    if i == 0 {
      StartInv(run[0]);
    } else {
      RunInv(run, steps, i - 1);
      StepKeeps(run[i - 1], steps[i - 1]);
    }
  }

  // ---------- What the calls were given ----------

  // The items of every push or push_batch call that was let in, call by call: it did not find the
  // ring closed, and a batch is neither empty nor as large as the ring.  A call that finds the
  // ring closed while it waits for room takes its items back.
  function Calls<T>(steps: seq<Step<T>>, slots: nat): seq<seq<T>> {
    if steps == [] then []
    else
      var before := Calls(steps[..|steps| - 1], slots);
      match steps[|steps| - 1]
      case Push(items, batch, sawClosed) =>
        if !sawClosed && items != [] && (batch ==> |items| < slots) then before + [items] else before
      case SpinClosed(sawClosed) =>
        if sawClosed && before != [] then before[..|before| - 1] else before
      case _ => before
  }

  function Flat<T>(calls: seq<seq<T>>): seq<T> {
    if calls == [] then [] else Flat(calls[..|calls| - 1]) + calls[|calls| - 1]
  }

  // The items of the call in progress.
  function InProgress<T>(s: State<T>): seq<T> {
    if s.prod.PIdle? then [] else s.prod.items
  }

  ghost predicate CallsStand<T>(calls: seq<seq<T>>, s: State<T>) {
    if s.prod.PIdle? then Flat(calls) == s.pushed
    else calls != [] && calls[|calls| - 1] == s.prod.items && Flat(calls[..|calls| - 1]) == s.pushed
  }

  lemma CallsStep<T>(steps: seq<Step<T>>, s: State<T>, slots: nat)
    requires steps != [] && Enabled(s, steps[|steps| - 1]) && slots == s.Capacity()
    requires CallsStand(Calls(steps[..|steps| - 1], slots), s)
    ensures CallsStand(Calls(steps, slots), Next(s, steps[|steps| - 1]))
  {
    var step, before := steps[|steps| - 1], Calls(steps[..|steps| - 1], slots);
    hide Pow2, And, Wrap, Flat;
    if step.Push? {
      assert (before + [step.items])[..|before|] == before;
    } else if !step.SpinClosed? {
      assert Calls(steps, slots) == before;
      hide Calls;
      FlatLast(before);
      OnTheWay(s, step);
      hide Enabled, Next;
    }
  }

  // Apart from the start and the end of a call, the call stays as it is.
  lemma OnTheWay<T>(s: State<T>, step: Step<T>)
    requires Enabled(s, step) && !step.Push? && !step.SpinClosed?
    ensures var t := Next(s, step);
      if step.Publish? then
        !s.prod.PIdle? && t.prod.PIdle? && t.pushed == s.pushed + s.prod.items
      else
        t.pushed == s.pushed && t.prod.PIdle? == s.prod.PIdle? && InProgress(t) == InProgress(s)
  {
    hide Pow2, And, Wrap;
  }

  lemma FlatLast<T>(calls: seq<seq<T>>)
    ensures calls != [] ==> Flat(calls) == Flat(calls[..|calls| - 1]) + calls[|calls| - 1]
  {
  }

  lemma StepBits<T>(s: State<T>, step: Step<T>)
    requires Enabled(s, step)
    ensures Next(s, step).bits == s.bits
  {
    hide Pow2, And, Wrap;
  }

  lemma {:induction false} CallsAlong<T>(run: seq<State<T>>, steps: seq<Step<T>>, i: nat)
    requires IsRun(run, steps) && Start(run[0]) && i < |run|
    ensures run[i].bits == run[0].bits && CallsStand(Calls(steps[..i], |run[0].buffer|), run[i])
  {
    hide Enabled, Next, CallsStand;
    if i == 0 {
      StartStands(run[0]);
    } else {
      CallsAlong(run, steps, i - 1);
      StepBits(run[i - 1], steps[i - 1]);
      assert steps[..i][..i - 1] == steps[..i - 1];
      CallsStep(steps[..i], run[i - 1], |run[0].buffer|);
    }
  }

  lemma StartStands<T>(s: State<T>)
    requires Start(s)
    ensures CallsStand([], s)
  {
  }

  // In every run, what the calls were given is what is published, then the call in progress.
  lemma CallsArePublished<T>(run: seq<State<T>>, steps: seq<Step<T>>, i: nat)
    requires IsRun(run, steps) && Start(run[0]) && i < |run|
    ensures Flat(Calls(steps[..i], |run[0].buffer|)) == run[i].pushed + InProgress(run[i])
  {
    CallsAlong(run, steps, i);
    FlatLast(Calls(steps[..i], |run[0].buffer|));
    assert run[i].pushed + [] == run[i].pushed;
    hide Calls, Flat, Start, IsRun;
  }

  // ---------- Safety in every state ----------

  // The item the consumer has moved out of the ring but not yet handed over.
  function InHand<T>(s: State<T>): seq<T> {
    if s.cons.CTake? || s.cons.CGive? then [s.cons.item] else []
  }

  // Slots already emptied although tail_ still points at them.
  function Emptied<T>(s: State<T>): nat {
    if s.cons.CTake? then 1 else 0
  }

  // The items between tail_ and head_, read from the real fields.
  function Unread<T>(s: State<T>): seq<T>
    requires |s.buffer| == s.Capacity() && Emptied(s) <= s.Size()
  {
    seq(s.Size() - Emptied(s), i requires 0 <= i < s.Size() - Emptied(s) => s.buffer[s.Masked(s.tail + Emptied(s) + i)])
  }

  // The items the calls were given are the delivered ones, then the one in hand, then the ring
  // contents, then those of the call in progress.
  lemma Conservation<T>(run: seq<State<T>>, steps: seq<Step<T>>, i: nat)
    requires IsRun(run, steps) && Start(run[0]) && i < |run|
    ensures run[i].Size() < |run[i].buffer| == run[i].Capacity()
    ensures Emptied(run[i]) <= run[i].Size()
    ensures run[i].pushed == run[i].delivered + InHand(run[i]) + Unread(run[i])
    ensures Flat(Calls(steps[..i], |run[0].buffer|)) ==
      run[i].delivered + InHand(run[i]) + Unread(run[i]) + InProgress(run[i])
  {
    RunInv(run, steps, i);
    ConservationIn(run[i]);
    CallsArePublished(run, steps, i);
    hide Inv, Enabled, Next, Calls, Flat, Unread, InHand, Emptied;
  }

  lemma ConservationIn<T>(s: State<T>)
    requires Inv(s)
    ensures s.Size() < |s.buffer| == s.Capacity()
    ensures Emptied(s) <= s.Size()
    ensures s.pushed == s.delivered + InHand(s) + Unread(s)
  {
    hide Pow2, And, Wrap;
    SizeExact(s);
    var first := |s.taken| + Emptied(s);
    assert s.delivered + InHand(s) == s.pushed[..first];
    var unread := Unread(s);
    forall i | 0 <= i < |unread|
      ensures unread[i] == s.pushed[first + i]
    {
      Advance(s, |s.taken|, Emptied(s) + i);
      assert At(s.buffer, first + i) == s.pushed[first + i];
    }
    assert unread == s.pushed[first..];
  }

  // The slot about to be written held nothing, or an item whose removal the producer has
  // already seen; it is neither an unread item's slot nor the slot the consumer is reading.
  lemma NoOverwrite<T>(run: seq<State<T>>, steps: seq<Step<T>>, i: nat)
    requires IsRun(run, steps) && Start(run[0]) && i < |steps| && steps[i].WriteSlot?
    ensures var s := run[i];
      var slot := s.Masked(s.head + s.prod.done);
      && |s.pushed| + s.prod.done < s.tailView + s.Capacity()
      && (forall n :: |s.taken| <= n < |s.pushed| ==> n % s.Capacity() != slot)
      && (s.cons.CRead? || s.cons.CTake? ==> slot != s.tail && |s.taken| < s.headView)
  {
    RunInv(run, steps, i);
    NoOverwriteIn(run[i]);
  }

  lemma NoOverwriteIn<T>(s: State<T>)
    requires Inv(s) && Enabled(s, WriteSlot)
    ensures |s.pushed| + s.prod.done < s.tailView + s.Capacity()
    ensures forall n :: |s.taken| <= n < |s.pushed| ==> n % s.Capacity() != s.Masked(s.head + s.prod.done)
    ensures s.cons.CRead? || s.cons.CTake? ==> s.Masked(s.head + s.prod.done) != s.tail && |s.taken| < s.headView
  {
    hide Pow2, And, Wrap, Slots, Written, Accounted, CloseKnown, HeadsKnown;
    Advance(s, |s.pushed|, s.prod.done);
    ApartBelow(s.Capacity(), |s.taken|, |s.pushed| + s.prod.done);
    hide State.Capacity;
  }

  lemma ApartBelow(c: nat, lo: nat, here: nat)
    requires here < lo + c
    ensures forall n :: lo <= n < here ==> n % c != here % c
  {
    forall n | lo <= n < here
      ensures n % c != here % c
    {
      SlotsApart(c, n, here);
    }
  }

  // ---------- End of stream ----------

  // A pop that answers false has seen closed_ set and has handed over every item the closing
  // thread knew of; with the producer as the only closer that is the whole stream.
  lemma PopFalse<T>(run: seq<State<T>>, steps: seq<Step<T>>, i: nat)
    requires IsRun(run, steps) && Start(run[0]) && i < |run| && run[i].cons.CFalse?
    ensures run[i].closing.closed
    ensures run[i].closing.closeView <= |run[i].delivered| && run[i].delivered <= run[i].pushed
    ensures !run[i].closing.otherClosed ==> run[i].delivered == run[i].pushed
  {
    RunInv(run, steps, i);
  }

  lemma StepClosedForGood<T>(s: State<T>, step: Step<T>)
    requires Inv(s) && Enabled(s, step) && s.closing.producerClosed
    ensures Next(s, step).closing.producerClosed && Next(s, step).pushed == s.pushed
  {
    hide Pow2, And, Wrap;
  }

  // Once the producer has closed the ring it publishes nothing more.
  lemma {:induction false} ClosedForGood<T>(run: seq<State<T>>, steps: seq<Step<T>>, i: nat, j: nat)
    requires IsRun(run, steps) && Start(run[0]) && i <= j < |run| && run[i].closing.producerClosed
    ensures run[j].closing.producerClosed && run[j].pushed == run[i].pushed
  {
    hide Inv, Enabled, Next;
    if i < j {
      ClosedForGood(run, steps, i, j - 1);
      RunInv(run, steps, j - 1);
      StepClosedForGood(run[j - 1], steps[j - 1]);
    }
  }

  // A consumer that loops until false has received exactly what the calls were given, then and
  // for ever after, when the producer is the thread that closes.
  lemma ReceivesAll<T>(run: seq<State<T>>, steps: seq<Step<T>>, i: nat, j: nat)
    requires IsRun(run, steps) && Start(run[0]) && i <= j < |run|
    requires run[i].cons.CFalse? && !run[i].closing.otherClosed
    ensures run[i].delivered == run[j].pushed == Flat(Calls(steps[..j], |run[0].buffer|))
  {
    PopFalse(run, steps, i);
    RunInv(run, steps, i);
    ClosedForGood(run, steps, i, j);
    RunInv(run, steps, j);
    CallsArePublished(run, steps, j);
    assert run[j].pushed + [] == run[j].pushed;
    hide Enabled, Next, Calls, Flat, Indices, HeadsKnown, Slots, Written, Reserved, Waiting, Accounted;
  }

  // With another thread closing, the promise fails even when every load is fresh: the close
  // falls between the producer's test of closed_ and its store to head_.
  lemma OtherCloserLoses()
    ensures exists run: seq<State<int>>, steps: seq<Step<int>> ::
      && IsRun(run, steps) && Start(run[0])
      && run[|steps|].cons.CFalse? && run[|steps|].delivered == [] && run[|steps|].pushed == [7]
  {
    var run := seq(10, i requires 0 <= i < 10 => Lost(i));
    var steps := seq(9, i requires 0 <= i < 9 => LosingStep(i));
    forall i | 0 <= i < |steps|
      ensures Enabled(run[i], steps[i]) && run[i + 1] == Next(run[i], steps[i])
    {
      LostSoFar(i);
    }
    hide Enabled, Next;
    assert IsRun(run, steps);
  }

  function Lost(i: nat): State<int> {
    var prod := if i == 0 || i > 8 then PIdle else if i == 1 then PTest([7], false)
                else PWrite([7], if i == 2 then 0 else 1);
    var cons := if i < 5 then CIdle else if i == 5 then CRefresh else if i == 6 then CSpin
                else if i == 7 then CRecheck else CFalse;
    State(1, if i < 3 then [0, 0] else [7, 0], if i < 9 then 0 else 1, 0, 0, 0,
          Closing(i > 3, 0, false, i > 3, false, i > 6, 0), prod, cons,
          if i < 9 then [] else [7], [], [], if i < 9 then {0} else {0, 1}, 0, 0)
  }

  function LosingStep(i: nat): Step<int> {
    if i == 0 then Push([7], false, false)
    else if i == 1 then TestRoom
    else if i == 2 then WriteSlot
    else if i == 3 then OtherClose(0)
    else if i == 4 then Pop
    else if i == 5 then LoadHead(0)
    else if i == 6 then LoadClosed(true)
    else if i == 7 then LoadHead(0)
    else Publish
  }

  lemma LostSoFar(i: nat)
    requires i < 9
    ensures Enabled(Lost(i), LosingStep(i)) && Next(Lost(i), LosingStep(i)) == Lost(i + 1)
  {
    TwoSlots(Lost(i));
    hide Pow2, And, Wrap, State.Masked, State.Capacity;
    assert [0, 0][0 := 7] == [7, 0] && [] + [7] == [7] && {0} + {1} == {0, 1};
  }

  lemma TwoSlots<T>(s: State<T>)
    requires s.bits == 1
    ensures s.Capacity() == 2 && s.Masked(0) == 0 && s.Masked(1) == 1
  {
    assert Pow2(1) == 2;
    WrapMask(0, 1);
    WrapMask(1, 1);
  }

  // ---------- Batches ----------

  // No published value of head_, and so no view of the consumer, lies inside the stretch.
  predicate Unsplit<T>(s: State<T>, lo: nat, hi: nat) {
    && hi <= |s.pushed|
    && (forall n :: n in s.heads ==> n <= lo || hi <= n)
    && (s.headView <= lo || hi <= s.headView)
  }

  lemma StepUnsplit<T>(s: State<T>, step: Step<T>, lo: nat, hi: nat)
    requires Enabled(s, step) && Unsplit(s, lo, hi)
    ensures Unsplit(Next(s, step), lo, hi)
  {
    hide Pow2, And, Wrap;
  }

  lemma PublishUnsplit<T>(s: State<T>)
    requires Inv(s) && Enabled(s, Publish)
    ensures Next(s, Publish).pushed == s.pushed + s.prod.items
    ensures Unsplit(Next(s, Publish), |s.pushed|, |s.pushed| + |s.prod.items|)
  {
    hide Pow2, And, Wrap;
  }

  // The consumer's view never falls inside a published batch.
  lemma {:induction false} BatchVisibleAtOnce<T>(run: seq<State<T>>, steps: seq<Step<T>>, i: nat, j: nat)
    requires IsRun(run, steps) && Start(run[0]) && i < |steps| && steps[i].Publish? && i < j < |run|
    ensures run[i].prod.PWrite? && run[i + 1].pushed == run[i].pushed + run[i].prod.items
    ensures Unsplit(run[j], |run[i].pushed|, |run[i].pushed| + |run[i].prod.items|)
  {
    hide Unsplit, Next, Inv;
    RunInv(run, steps, i);
    PublishUnsplit(run[i]);
    if i + 1 < j {
      hide Enabled;
      BatchVisibleAtOnce(run, steps, i, j - 1);
      StepUnsplit(run[j - 1], steps[j - 1], |run[i].pushed|, |run[i].pushed| + |run[i].prod.items|);
    }
  }

  // Writing items one after another from stream position n.
  function Fill<T>(buffer: seq<T>, n: nat, items: seq<T>): seq<T>
    requires buffer != []
    decreases |items|
  {
    if items == [] then buffer else Fill(buffer[n % |buffer| := items[0]], n + 1, items[1..])
  }

  // The producer writes its remaining items and publishes, nothing else running.
  function Finish<T(==)>(s: State<T>): State<T>
    requires s.prod.PWrite? && s.prod.done <= |s.prod.items| && |s.buffer| == s.Capacity()
    decreases |s.prod.items| - s.prod.done
  {
    if s.prod.done < |s.prod.items| then Finish(Next(s, WriteSlot)) else Next(s, Publish)
  }

  ghost predicate Ready<T>(s: State<T>, count: nat) {
    Inv(s) && s.prod.PIdle? && !s.closing.closed && count <= s.FreeSlots()
  }

  // The state after a call that published items, whatever the call.
  function Extended<T(==)>(s: State<T>, items: seq<T>): State<T>
    requires s.buffer != []
  {
    s.(buffer := Fill(s.buffer, |s.pushed|, items), head := (|s.pushed| + |items|) % s.Capacity(),
       pushed := s.pushed + items, heads := {})
  }

  lemma CallFindsRoom<T>(s: State<T>, items: seq<T>, batch: bool)
    requires Ready(s, |items|) && items != [] && (batch || |items| == 1)
    ensures Enabled(s, Push(items, batch, false))
    ensures Next(s, Push(items, batch, false)) == s.(prod := PTest(items, batch))
    ensures Next(s.(prod := PTest(items, batch)), TestRoom) == s.(prod := PWrite(items, 0))
    ensures Inv(s.(prod := PWrite(items, 0)))
  {
    hide Pow2, And, Wrap;
    FreeSlotsExact(s);
    FullExact(s);
    var t := s.(prod := PTest(items, batch));
    assert t.FreeSlots() == s.FreeSlots() && t.Full() == s.Full();
  }

  // One whole push or push_batch call that finds room.
  ghost function Call<T>(s: State<T>, items: seq<T>, batch: bool): State<T>
    requires Ready(s, |items|) && items != [] && (batch || |items| == 1)
  {
    CallFindsRoom(s, items, batch);
    Finish(Next(Next(s, Push(items, batch, false)), TestRoom))
  }

  function Finished<T(==)>(s: State<T>): State<T>
    requires s.prod.PWrite? && s.prod.done <= |s.prod.items| && s.buffer != []
  {
    s.(buffer := Fill(s.buffer, |s.pushed| + s.prod.done, s.prod.items[s.prod.done..]),
       head := (|s.pushed| + |s.prod.items|) % s.Capacity(), pushed := s.pushed + s.prod.items,
       heads := {}, prod := PIdle)
  }

  lemma WriteFills<T>(s: State<T>)
    requires Inv(s) && Enabled(s, WriteSlot)
    ensures Inv(Next(s, WriteSlot)) && Finished(Next(s, WriteSlot)) == Finished(s)
  {
    hide Pow2, And, Wrap;
    WriteSlotKeeps(s);
    Advance(s, |s.pushed|, s.prod.done);
    assert s.prod.items[s.prod.done..][1..] == s.prod.items[s.prod.done + 1..];
  }

  lemma PublishFinishes<T>(s: State<T>)
    requires Inv(s) && Enabled(s, Publish)
    ensures Inv(Next(s, Publish)) && Next(s, Publish).(heads := {}) == Finished(s)
  {
    hide Pow2, And, Wrap;
    PublishKeeps(s);
    Advance(s, |s.pushed|, |s.prod.items|);
  }

  lemma {:induction false} FinishFills<T>(s: State<T>)
    requires Inv(s) && s.prod.PWrite?
    ensures Inv(Finish(s)) && Finish(s).(heads := {}) == Finished(s)
    decreases |s.prod.items| - s.prod.done
  {
    hide Pow2, And, Wrap, Finished;
    if s.prod.done < |s.prod.items| {
      WriteFills(s);
      FinishFills(Next(s, WriteSlot));
    } else {
      PublishFinishes(s);
    }
  }

  lemma CallExtends<T>(s: State<T>, items: seq<T>, batch: bool)
    requires Ready(s, |items|) && items != [] && (batch || |items| == 1)
    ensures Call(s, items, batch).(heads := {}) == Extended(s, items)
    ensures Ready(Call(s, items, batch), s.FreeSlots() - |items|)
  {
    hide Pow2, And, Wrap;
    CallFindsRoom(s, items, batch);
    FinishFills(s.(prod := PWrite(items, 0)));
    FreeSlotsExact(s);
    FreeSlotsExact(Call(s, items, batch));
  }

  ghost function Singles<T>(s: State<T>, items: seq<T>): State<T>
    requires Ready(s, |items|)
    decreases |items|
  {
    if items == [] then s
    else
      CallExtends(s, [items[0]], false);
      Singles(Call(s, [items[0]], false), items[1..])
  }

  lemma {:induction false} SinglesExtend<T>(s: State<T>, items: seq<T>)
    requires Ready(s, |items|)
    ensures Singles(s, items).(heads := {}) == Extended(s, items)
    decreases |items|
  {
    hide Pow2, And, Wrap, Call, State.FreeSlots, State.Masked, Slots, Written, Reserved, Waiting, Accounted, CloseKnown;
    if items != [] {
      CallExtends(s, [items[0]], false);
      var t := Call(s, [items[0]], false);
      SinglesExtend(t, items[1..]);
      assert Fill(s.buffer, |s.pushed|, [items[0]]) == s.buffer[|s.pushed| % |s.buffer| := items[0]];
      assert s.pushed + [items[0]] + items[1..] == s.pushed + items;
    }
  }

  // A batch leaves the ring as its items pushed one by one would; only the
  // intermediate values of head_ are never published.
  lemma BatchIsSingles<T>(s: State<T>, items: seq<T>)
    requires Ready(s, |items|) && items != []
    ensures Call(s, items, true).(heads := {}) == Singles(s, items).(heads := {})
    ensures Call(s, items, true).pushed == s.pushed + items
  {
    CallExtends(s, items, true);
    SinglesExtend(s, items);
  }

  // ---------- The ring is a queue ----------

  // What is published and not yet freed.
  function Contents<T>(s: State<T>): seq<T>
    requires |s.taken| <= |s.pushed|
  {
    s.pushed[|s.taken|..]
  }

  // Single pushes into a queue, one after another.
  function EnqueueAll<T>(queue: seq<T>, items: seq<T>): seq<T>
    decreases |items|
  {
    if items == [] then queue else EnqueueAll(queue + [items[0]], items[1..])
  }

  lemma {:induction false} EnqueueAppends<T>(queue: seq<T>, items: seq<T>)
    ensures EnqueueAll(queue, items) == queue + items
    decreases |items|
  {
    if items == [] {
      assert queue + items == queue;
    } else {
      EnqueueAppends(queue + [items[0]], items[1..]);
      assert queue + [items[0]] + items[1..] == queue + items;
    }
  }

  // Under every interleaving, a publication is the single pushes of its items made at once, a
  // tail store takes the oldest item, and no other step changes the queue; the queue is what
  // the real fields hold.
  lemma RefinesQueue<T>(run: seq<State<T>>, steps: seq<Step<T>>, i: nat)
    requires IsRun(run, steps) && Start(run[0]) && i < |steps|
    ensures |run[i].taken| <= |run[i].pushed| && |run[i + 1].taken| <= |run[i + 1].pushed|
    ensures Emptied(run[i]) <= run[i].Size() < |run[i].buffer| == run[i].Capacity()
    ensures Contents(run[i]) == (if run[i].cons.CTake? then [run[i].cons.item] else []) + Unread(run[i])
    ensures steps[i].Publish? ==> Contents(run[i + 1]) == EnqueueAll(Contents(run[i]), run[i].prod.items)
    ensures steps[i].StoreTail? ==> [run[i].cons.item] + Contents(run[i + 1]) == Contents(run[i])
    ensures !steps[i].Publish? && !steps[i].StoreTail? ==> Contents(run[i + 1]) == Contents(run[i])
  {
    RunInv(run, steps, i);
    RunInv(run, steps, i + 1);
    Conservation(run, steps, i);
    QueueStep(run[i], steps[i]);
    ContentsReal(run[i]);
    hide Inv, Enabled, Next, Unread, Emptied, State.Size, State.Capacity;
  }

  lemma ContentsReal<T>(s: State<T>)
    requires Inv(s) && Emptied(s) <= s.Size() < |s.buffer| == s.Capacity()
    requires s.pushed == s.delivered + InHand(s) + Unread(s)
    ensures |s.taken| <= |s.pushed|
    ensures Contents(s) == (if s.cons.CTake? then [s.cons.item] else []) + Unread(s)
  {
    var unread := Unread(s);
    hide Pow2, And, Wrap, Unread, State.Size, State.Capacity, Indices, Slots, Written, Waiting;
    if s.cons.CTake? {
      assert s.pushed == s.taken + ([s.cons.item] + unread);
    } else {
      assert s.pushed == s.taken + unread;
    }
  }

  lemma QueueStep<T>(s: State<T>, step: Step<T>)
    requires Inv(s) && Enabled(s, step)
    ensures var t := Next(s, step);
      && |s.taken| <= |s.pushed| && |t.taken| <= |t.pushed|
      && (step.Publish? ==> Contents(t) == EnqueueAll(Contents(s), s.prod.items))
      && (step.StoreTail? ==> [s.cons.item] + Contents(t) == Contents(s))
      && (!step.Publish? && !step.StoreTail? ==> Contents(t) == Contents(s))
  {
    hide Pow2, And, Wrap, Slots, Written;
    if step.Publish? {
      EnqueueAppends(Contents(s), s.prod.items);
    }
  }

  // ---------- Progress ----------

  // With at least two slots, fresh views never leave both sides waiting for each other.
  lemma NeverBothStuck<T>(run: seq<State<T>>, steps: seq<Step<T>>, i: nat)
    requires IsRun(run, steps) && Start(run[0]) && i < |run|
    requires run[i].bits > 0 && run[i].prod.PTest?
    requires run[i].tailView == |run[i].taken| && run[i].headView == |run[i].pushed|
    ensures Next(run[i], TestRoom).prod.PWrite? || run[i].tail != run[i].headCached
  {
    var s := run[i];
    RunInv(run, steps, i);
    FreeSlotsExact(s);
    FullExact(s);
    EmptyTestExact(s);
    hide And, Wrap;
  }

  lemma StepStuck<T>(s: State<T>, step: Step<T>)
    requires Inv(s) && Enabled(s, step) && s.bits == 0 && s.pushed == []
    ensures Next(s, step).bits == 0 && Next(s, step).pushed == []
  {
    hide And, Wrap, Slots, Waiting, Accounted, CloseKnown, HeadsKnown;
  }

  // The degenerate capacity of one, which the power-of-two check admits, never has room.
  lemma {:induction false} CapacityOneStuck<T>(run: seq<State<T>>, steps: seq<Step<T>>, i: nat)
    requires IsRun(run, steps) && Start(run[0]) && i < |run| && run[0].bits == 0
    ensures run[i].bits == 0 && run[i].pushed == [] && run[i].Full() && run[i].FreeSlots() == 0
  {
    hide Inv, Enabled, Next, Pow2, And, Wrap, State.Masked, State.Capacity;
    assert run[i].bits == 0 && run[i].pushed == [] by {
      if i > 0 {
        CapacityOneStuck(run, steps, i - 1);
        RunInv(run, steps, i - 1);
        StepStuck(run[i - 1], steps[i - 1]);
      }
    }
    RunInv(run, steps, i);
    OneSlotFull(run[i]);
  }

  lemma OneSlotFull<T>(s: State<T>)
    requires Inv(s) && s.bits == 0
    ensures s.Full() && s.FreeSlots() == 0
  {
    FreeSlotsExact(s);
    FullExact(s);
    hide And, Wrap;
  }
}
