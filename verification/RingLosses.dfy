// Exactly when a closed ring can leave a published item undelivered.
module RingLosses {
  import opened LockFreeQueue
  import opened Masks
  import opened RingTheorems

  // ---------- Putting runs together ----------

  function Last<T>(run: seq<State<T>>): State<T>
    requires run != []
  {
    run[|run| - 1]
  }

  // A run of some steps from s to t that keeps the invariant; nobody but the producer closes.
  ghost predicate Leads<T(!new)>(s: State<T>, t: State<T>) {
    exists run: seq<State<T>>, steps: seq<Step<T>> :: Path(run, steps, s, t)
  }

  ghost predicate Path<T>(run: seq<State<T>>, steps: seq<Step<T>>, s: State<T>, t: State<T>) {
    && IsRun(run, steps) && run[0] == s && Last(run) == t
    && forall i :: 0 <= i < |steps| ==> !steps[i].OtherClose?
  }

  lemma Stays<T(!new)>(s: State<T>)
    ensures Leads(s, s)
  {
    assert Path([s], [], s, s);
  }

  lemma StepsOn<T(!new)>(s: State<T>, step: Step<T>, t: State<T>)
    requires Enabled(s, step) && !step.OtherClose? && Leads(Next(s, step), t)
    ensures Leads(s, t)
  {
    hide Enabled, Next;
    var run: seq<State<T>>, steps: seq<Step<T>> :| Path(run, steps, Next(s, step), t);
    var longer, more := [s] + run, [step] + steps;
    forall i | 0 <= i < |more|
      ensures Enabled(longer[i], more[i]) && longer[i + 1] == Next(longer[i], more[i]) && !more[i].OtherClose?
    {
      if i > 0 {
        assert longer[i] == run[i - 1] && more[i] == steps[i - 1] && longer[i + 1] == run[i];
      }
    }
    assert Path(longer, more, s, t);
  }

  lemma Joined<T(!new)>(s: State<T>, t: State<T>, u: State<T>)
    requires Leads(s, t) && Leads(t, u)
    ensures Leads(s, u)
  {
    hide Enabled, Next;
    var run: seq<State<T>>, steps: seq<Step<T>> :| Path(run, steps, s, t);
    var run': seq<State<T>>, steps': seq<Step<T>> :| Path(run', steps', t, u);
    var both, all := run + run'[1..], steps + steps';
    forall i | 0 <= i < |all|
      ensures Enabled(both[i], all[i]) && both[i + 1] == Next(both[i], all[i]) && !all[i].OtherClose?
    {
      if i < |steps| {
        assert both[i] == run[i] && both[i + 1] == run[i + 1];
      } else {
        var k := i - |steps|;
        assert both[i] == run'[k] && both[i + 1] == run'[k + 1] && all[i] == steps'[k];
      }
    }
    assert Path(both, all, s, u);
  }

  // ---------- The consumer gives up at a view ----------

  // closed_ without what the consumer has read of it.
  function Unseen(c: Closing): Closing {
    c.(consumerSaw := false, sawAt := 0)
  }

  // What the consumer's steps on the way to false leave alone.
  predicate SameProducer<T(==)>(s: State<T>, t: State<T>) {
    && s.prod == t.prod && s.pushed == t.pushed && s.heads == t.heads && s.tailView == t.tailView
    && s.bits == t.bits && s.head == t.head && s.tailCached == t.tailCached
    && Unseen(s.closing) == Unseen(t.closing) && s.ProducerKnows() == t.ProducerKnows()
  }

  predicate ViewOpen<T>(s: State<T>, v: nat) {
    s.closing.closed && v in s.heads && s.headView <= v && s.closing.closeView <= v
  }

  function Rank<T>(s: State<T>): nat {
    match s.cons
    case CFalse => 9
    case CGive(_) => 8
    case CIdle => 7
    case CRefresh => 6
    case CReload => 6
    case CSpin => 5
    case CRecheck => 4
    case CRead => 3
    case CTake(_) => 2
  }

  // The consumer's next step on its way to answering false at the view.
  function TowardsFalse<T>(s: State<T>, v: nat): Step<T>
    requires s.cons.CRead? ==> s.tail < |s.buffer|
  {
    match s.cons
    case CFalse => Pop
    case CIdle => Pop
    case CGive(_) => Deliver
    case CRefresh => LoadHead(v)
    case CReload => LoadHead(v)
    case CRecheck => LoadHead(v)
    case CSpin => LoadClosed(true)
    case CRead => ReadSlot(s.buffer[s.tail])
    case CTake(_) => StoreTail
  }

  predicate Answered<T>(s: State<T>, v: nat) {
    s.cons.CFalse? && |s.taken| == v
  }

  function ToGo<T>(s: State<T>, v: nat): int {
    if Answered(s, v) then 0 else 10 * (v - |s.taken|) + Rank(s)
  }

  lemma ViewTaken<T>(s: State<T>, v: nat)
    requires Inv(s) && ViewOpen(s, v)
    ensures |s.taken| <= v && ToGo(s, v) >= 0 && (s.cons.CRead? ==> s.tail < |s.buffer|)
  {
    hide Pow2, And, Wrap;
  }

  lemma TowardsFalseStep<T>(s: State<T>, v: nat)
    requires Inv(s) && ViewOpen(s, v) && !Answered(s, v)
    ensures s.cons.CRead? ==> s.tail < |s.buffer|
    ensures var step := TowardsFalse(s, v);
      Enabled(s, step) && !step.OtherClose? && SameProducer(s, Next(s, step)) && ViewOpen(Next(s, step), v)
      && ToGo(Next(s, step), v) < ToGo(s, v)
  {
    ViewTaken(s, v);
    hide Pow2, And, Wrap, State.FreeSlots, State.Full, State.Masked, Slots, Written, Reserved, Accounted, CloseKnown;
    match s.cons
    case CFalse => EmptyTestExact(s);
    case CIdle => EmptyTestExact(s);
    case CRefresh => EmptyTestExact(s.(headCached := v % s.Capacity(), headView := v));
    case CReload => EmptyTestExact(s.(headCached := v % s.Capacity(), headView := v));
    case CRecheck => EmptyTestExact(s.(headCached := v % s.Capacity(), headView := v));
    case _ =>
  }

  lemma {:induction false} GivesUp<T(!new)>(s: State<T>, v: nat) returns (t: State<T>)
    requires Inv(s) && ViewOpen(s, v)
    ensures Leads(s, t) && Inv(t) && SameProducer(s, t) && Answered(t, v)
    decreases ToGo(s, v)
  {
    hide Inv, Enabled, Next, Leads, ViewOpen;
    t := s;
    if Answered(s, v) {
      Stays(s);
    } else {
      TowardsFalseStep(s, v);
      var step := TowardsFalse(s, v);
      StepKeeps(s, step);
      ViewTaken(s, v);
      ViewTaken(Next(s, step), v);
      t := GivesUp(Next(s, step), v);
      StepsOn(s, step, t);
    }
  }

  // ---------- The producer publishes all the same ----------

  // What the producer's steps leave alone.
  predicate SameConsumer<T(==)>(s: State<T>, t: State<T>) {
    s.cons == t.cons && s.taken == t.taken && s.delivered == t.delivered
  }

  // The test of TestRoom.
  predicate HasRoom<T>(s: State<T>)
    requires s.prod.PTest?
  {
    if s.prod.batch then s.FreeSlots() >= |s.prod.items| else !s.Full()
  }

  // The producer can still publish: it is past its tests of closed_, or about to load a
  // fresher tail_, or its next test may still miss the store.
  predicate MayPublish<T>(s: State<T>) {
    match s.prod
    case PWrite(_, _) => true
    case PLoad(_, _) => true
    case PTest(_, _) => HasRoom(s) || !s.ProducerKnows()
    case _ => !s.ProducerKnows()
  }

  predicate CanWrite<T>(s: State<T>) {
    MayPublish(s) && s.bits > 0 && |s.taken| == |s.pushed|
  }

  function ToWrite<T>(s: State<T>): nat {
    match s.prod
    case PIdle => 5
    case PTest(_, _) => if s.tailView == |s.taken| then 1 else 4
    case PSpin(_, _) => 3
    case PLoad(_, _) => 2
    case PWrite(_, _) => 0
  }

  function TowardsWrite<T>(s: State<T>, x: T): Step<T> {
    match s.prod
    case PIdle => Push([x], false, false)
    case PTest(_, _) => TestRoom
    case PSpin(_, _) => SpinClosed(false)
    case PLoad(_, _) => LoadTail(|s.taken|)
    case PWrite(_, _) => WriteSlot
  }

  // A load that misses the close lets the producer into the ring, and an empty ring has room.
  lemma TowardsWriteStep<T>(s: State<T>, x: T)
    requires Inv(s) && CanWrite(s) && !s.prod.PWrite?
    ensures var step := TowardsWrite(s, x);
      Enabled(s, step) && !step.OtherClose? && SameConsumer(s, Next(s, step)) && CanWrite(Next(s, step))
      && Next(s, step).pushed == s.pushed && ToWrite(Next(s, step)) < ToWrite(s)
  {
    hide Pow2, And, Wrap, State.FreeSlots, State.Full, Slots, Written, HeadsKnown, Waiting, Accounted;
    match s.prod
    case PTest(_, _) =>
      if s.tailView == |s.taken| {
        EmptyHasRoom(s);
      }
    case PLoad(_, _) =>
      LoadTailKeeps(s, |s.taken|);
      EmptyHasRoom(Next(s, LoadTail(|s.taken|)));
    case _ =>
  }

  lemma EmptyHasRoom<T>(s: State<T>)
    requires Indices(s) && Reserved(s) && s.prod.PTest? && s.bits > 0 && s.tailView == |s.pushed|
    ensures HasRoom(s)
  {
    FreeSlotsExact(s);
    FullExact(s);
    assert s.Capacity() >= 2;
    hide And, Wrap, State.FreeSlots, State.Full;
  }

  lemma {:induction false} Writes<T(!new)>(s: State<T>, x: T) returns (t: State<T>)
    requires Inv(s) && CanWrite(s)
    ensures Leads(s, t) && Inv(t) && SameConsumer(s, t) && t.prod.PWrite? && t.pushed == s.pushed
    decreases ToWrite(s)
  {
    hide Inv, Enabled, Next, Leads, CanWrite;
    t := s;
    if s.prod.PWrite? {
      Stays(s);
    } else {
      TowardsWriteStep(s, x);
      var step := TowardsWrite(s, x);
      StepKeeps(s, step);
      t := Writes(Next(s, step), x);
      StepsOn(s, step, t);
    }
  }

  lemma PublishStep<T>(s: State<T>)
    requires Inv(s) && s.prod.PWrite?
    ensures var step := if s.prod.done < |s.prod.items| then WriteSlot else Publish;
      var t := Next(s, step);
      Enabled(s, step) && SameConsumer(s, t)
      && (if step.Publish? then |t.pushed| > |s.pushed|
          else t.prod == s.prod.(done := s.prod.done + 1) && t.pushed == s.pushed)
  {
    hide Pow2, And, Wrap;
  }

  lemma {:induction false} Publishes<T(!new)>(s: State<T>) returns (t: State<T>)
    requires Inv(s) && s.prod.PWrite? && s.prod.done <= |s.prod.items|
    ensures Leads(s, t) && SameConsumer(s, t) && |t.pushed| > |s.pushed|
    decreases |s.prod.items| - s.prod.done
  {
    hide Inv, Enabled, Next, Leads;
    PublishStep(s);
    var step := if s.prod.done < |s.prod.items| then WriteSlot else Publish;
    StepKeeps(s, step);
    if step.Publish? {
      t := Next(s, step);
      Stays(t);
    } else {
      t := Publishes(Next(s, step));
    }
    StepsOn(s, step, t);
  }

  // ---------- The exact condition ----------

  // Some run from here, in which nobody but the producer closes any more, answers false with
  // a published item undelivered.
  ghost predicate CanLose<T(!new)>(s: State<T>) {
    exists t: State<T> :: Leads(s, t) && t.cons.CFalse? && t.delivered != t.pushed
  }

  ghost predicate OldViewOpen<T>(s: State<T>) {
    exists v: nat :: ViewOpen(s, v) && v < |s.pushed|
  }

  // After a close by another thread a producer that may still publish can do so past the
  // consumer's last word.
  lemma PublishesAfterFalse<T(!new)>(s: State<T>, x: T) returns (u: State<T>, t: State<T>)
    requires Inv(s) && s.bits > 0 && s.closing.otherClosed && s.closing.closed && MayPublish(s)
    ensures Leads(s, u) && u.cons.CFalse? && u.delivered == u.pushed
    ensures Leads(u, t) && t.cons.CFalse? && t.delivered == u.delivered && |t.pushed| > |t.delivered|
  {
    assert ViewOpen(s, |s.pushed|);
    u := GivesUp(s, |s.pushed|);
    assert u.delivered == u.pushed && CanWrite(u);
    var w := Writes(u, x);
    assert w.prod.done <= |w.prod.items|;
    t := Publishes(w);
    hide Leads, Inv;
    Joined(u, w, t);
  }

  // A producer that may not publish any more never will.
  lemma StepFacts<T>(s: State<T>, step: Step<T>)
    requires CloseKnown(s) && s.closing.closed && Enabled(s, step) && !step.OtherClose? && !MayPublish(s)
    ensures var t := Next(s, step);
      !MayPublish(t) && t.pushed == s.pushed && t.heads == s.heads && t.closing.closeView == s.closing.closeView
  {
    hide Pow2, And, Wrap;
  }

  // The consumer's view grows, closed_ stays set, and only the other thread is the other closer.
  lemma StepOther<T>(s: State<T>, step: Step<T>)
    requires Enabled(s, step) && !step.OtherClose?
    ensures Next(s, step).closing.otherClosed == s.closing.otherClosed && s.headView <= Next(s, step).headView
    ensures s.closing.closed ==> Next(s, step).closing.closed
  {
    hide Pow2, And, Wrap;
  }

  lemma {:induction false} AlongPath<T>(run: seq<State<T>>, steps: seq<Step<T>>, i: nat)
    requires IsRun(run, steps) && Inv(run[0]) && i < |run|
    requires forall k :: 0 <= k < |steps| ==> !steps[k].OtherClose?
    ensures Inv(run[i]) && run[i].closing.otherClosed == run[0].closing.otherClosed
    ensures run[0].closing.closed ==> run[i].closing.closed && run[0].headView <= run[i].headView
    ensures run[0].closing.closed && !MayPublish(run[0]) ==>
      !MayPublish(run[i]) && run[i].pushed == run[0].pushed && run[i].heads == run[0].heads
      && run[i].closing.closeView == run[0].closing.closeView
  {
    hide Inv, Enabled, Next, MayPublish, CloseKnown;
    if i > 0 {
      AlongPath(run, steps, i - 1);
      StepKeeps(run[i - 1], steps[i - 1]);
      InvCloseKnown(run[i - 1]);
      StepOther(run[i - 1], steps[i - 1]);
      if run[0].closing.closed && !MayPublish(run[0]) {
        StepFacts(run[i - 1], steps[i - 1]);
      }
    }
  }

  lemma InvCloseKnown<T>(s: State<T>)
    requires Inv(s)
    ensures CloseKnown(s)
  {
    hide Indices, HeadsKnown, Slots, Written, Reserved, Waiting, Accounted, CloseKnown;
  }

  lemma LossNeedsOther<T(!new)>(s: State<T>)
    requires Inv(s) && (s.closing.otherClosed ==> s.closing.closed) && CanLose(s)
    ensures s.closing.otherClosed && (MayPublish(s) || OldViewOpen(s))
  {
    var t :| Leads(s, t) && t.cons.CFalse? && t.delivered != t.pushed;
    var run: seq<State<T>>, steps: seq<Step<T>> :| Path(run, steps, s, t);
    hide MayPublish;
    AlongPath(run, steps, |run| - 1);
    LostView(t);
    if !MayPublish(s) {
      assert ViewOpen(s, t.headView);
    }
  }

  lemma LostView<T>(t: State<T>)
    requires Inv(t) && t.cons.CFalse? && t.delivered != t.pushed
    ensures t.closing.otherClosed && t.closing.closed
    ensures t.headView in t.heads && t.closing.closeView <= t.headView < |t.pushed|
  {
    hide Pow2, And, Wrap;
  }

  lemma OldViewLoses<T(!new)>(s: State<T>, v: nat)
    requires Inv(s) && ViewOpen(s, v) && v < |s.pushed|
    ensures CanLose(s)
  {
    var t := GivesUp(s, v);
    assert t.delivered == t.taken;
    assert Leads(s, t) && t.cons.CFalse? && t.delivered != t.pushed;
  }

  // In every reachable state of a ring with at least two slots: an item can still be lost if
  // and only if another thread has closed, and the producer may still publish, or a view from
  // before its last publication is still open to the consumer. With the producer as the only
  // closer nothing is ever lost.
  lemma LosesExactly<T(!new)>(run: seq<State<T>>, steps: seq<Step<T>>, i: nat, x: T)
    requires IsRun(run, steps) && Start(run[0]) && i < |run| && run[i].bits > 0
    ensures CanLose(run[i]) <==> run[i].closing.otherClosed && (MayPublish(run[i]) || OldViewOpen(run[i]))
  {
    hide MayPublish;
    var s := run[i];
    RunInv(run, steps, i);
    OtherMeansClosed(run, steps, i);
    if CanLose(s) {
      LossNeedsOther(s);
    }
    if s.closing.otherClosed && OldViewOpen(s) {
      var v: nat :| ViewOpen(s, v) && v < |s.pushed|;
      OldViewLoses(s, v);
    } else if s.closing.otherClosed && MayPublish(s) {
      var u, t := PublishesAfterFalse(s, x);
      Joined(s, u, t);
    }
  }

  lemma {:induction false} OtherMeansClosed<T>(run: seq<State<T>>, steps: seq<Step<T>>, i: nat)
    requires IsRun(run, steps) && Start(run[0]) && i < |run|
    ensures run[i].closing.otherClosed ==> run[i].closing.closed
  {
    if i > 0 {
      OtherMeansClosed(run, steps, i - 1);
      StepCloses(run[i - 1], steps[i - 1]);
    }
  }

  lemma StepCloses<T>(s: State<T>, step: Step<T>)
    requires Enabled(s, step) && (s.closing.otherClosed ==> s.closing.closed)
    ensures Next(s, step).closing.otherClosed ==> Next(s, step).closing.closed
  {
    hide Pow2, And, Wrap;
  }
}
