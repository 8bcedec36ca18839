// The tree of merging threads. Every node owns the queue its parent pops from;
// a step lets one thread perform one queue operation, and a schedule is any
// sequence of enabled steps.
module HierarchyMerger {
  import opened MarketData
  import opened StableMerge

  // std::optional<MarketDataEvent>
  datatype Slot = Empty | Held(event: Event) {
    function Seq(): seq<Event> {
      if Held? then [event] else []
    }
  }

  // Where a worker stands: the two initial pops, the loop test, the pop after a push.
  datatype Phase = FirstA | FirstB | Loop | RefillA | RefillB

  datatype Node =
    | Source(feed: seq<Event>, queue: seq<Event>, closed: bool)
    | Worker(a: Node, b: Node, phase: Phase, ea: Slot, eb: Slot, queue: seq<Event>, closed: bool)
    | Drain(a: Node, phase: Phase, ea: Slot, queue: seq<Event>, closed: bool)

  // Which thread moves, as a path from the root.
  datatype Step = Here | InA(step: Step) | InB(step: Step)

  // ---------- One queue operation ----------

  // A pop returns when the queue holds an item or is closed.
  predicate CanPop(n: Node) {
    n.queue != [] || n.closed
  }

  function Front(n: Node): Slot {
    if n.queue == [] then Empty else Held(n.queue[0])
  }

  function Tail(queue: seq<Event>): seq<Event> {
    if queue == [] then [] else queue[1..]
  }

  function Popped(n: Node): Node {
    match n
    case Source(feed, queue, closed) => Source(feed, Tail(queue), closed)
    case Worker(a, b, phase, ea, eb, queue, closed) => Worker(a, b, phase, ea, eb, Tail(queue), closed)
    case Drain(a, phase, ea, queue, closed) => Drain(a, phase, ea, Tail(queue), closed)
  }

  // The second register goes out when it is strictly earlier, or alone.
  predicate TakesB(ea: Slot, eb: Slot) {
    eb.Held? && (ea.Held? ==> ea.event.tsRecv > eb.event.tsRecv)
  }

  // A bound of 0 stands for an unbounded queue.
  predicate Room(queue: seq<Event>, bound: nat) {
    bound == 0 || |queue| < bound
  }

  predicate CanAct(n: Node, bound: nat) {
    match n
    case Source(feed, queue, closed) => !closed && (feed != [] ==> Room(queue, bound))
    case Worker(a, b, phase, ea, eb, queue, closed) =>
      (match phase
       case FirstA | RefillA => CanPop(a)
       case FirstB | RefillB => CanPop(b)
       case Loop => if ea.Held? || eb.Held? then Room(queue, bound) else !closed)
    case Drain(a, phase, ea, queue, closed) =>
      if phase != Loop then CanPop(a) else if ea.Held? then Room(queue, bound) else !closed
  }

  function Act(n: Node): Node {
    match n
    case Source(feed, queue, closed) =>
      if feed != [] then Source(feed[1..], queue + [feed[0]], closed) else Source(feed, queue, true)
    case Worker(a, b, phase, ea, eb, queue, closed) =>
      (match phase
       case FirstA => Worker(Popped(a), b, FirstB, Front(a), eb, queue, closed)
       case FirstB => Worker(a, Popped(b), Loop, ea, Front(b), queue, closed)
       case RefillA => Worker(Popped(a), b, Loop, Front(a), eb, queue, closed)
       case RefillB => Worker(a, Popped(b), Loop, ea, Front(b), queue, closed)
       case Loop =>
         if TakesB(ea, eb) then
           Worker(a, b, RefillB, ea, Empty, queue + [eb.event], closed)
         else if ea.Held? then
           Worker(a, b, RefillA, Empty, eb, queue + [ea.event], closed)
         else
           Worker(a, b, phase, ea, eb, queue, true))
    case Drain(a, phase, ea, queue, closed) =>
      if phase != Loop then Drain(Popped(a), Loop, Front(a), queue, closed)
      else if ea.Held? then Drain(a, RefillA, Empty, queue + [ea.event], closed)
      else Drain(a, phase, ea, queue, true)
  }

  predicate Enabled(n: Node, step: Step, bound: nat) {
    match step
    case Here => CanAct(n, bound)
    case InA(s) => !n.Source? && Enabled(n.a, s, bound)
    case InB(s) => n.Worker? && Enabled(n.b, s, bound)
  }

  function Next(n: Node, step: Step, bound: nat): Node
    requires Enabled(n, step, bound)
  {
    match step
    case Here => Act(n)
    case InA(s) => n.(a := Next(n.a, s, bound))
    case InB(s) => n.(b := Next(n.b, s, bound))
  }

  // ---------- What a node still has to deliver ----------

  function Pending(n: Node): seq<Event>
    decreases n, 1
  {
    n.queue + ToCome(n)
  }

  // What has not reached the node's queue yet.
  function ToCome(n: Node): seq<Event>
    decreases n, 0
  {
    match n
    case Source(feed, _, _) => feed
    case Worker(a, b, _, ea, eb, _, _) => Merge(ea.Seq() + Pending(a), eb.Seq() + Pending(b))
    case Drain(a, _, ea, _, _) => ea.Seq() + Pending(a)
  }

  predicate Finished(n: Node) {
    n.closed && n.queue == []
  }

  // A register is empty only before its first pop, after a push, or once its input has ended.
  predicate Ok(n: Node) {
    match n
    case Source(feed, _, closed) => closed ==> feed == []
    case Worker(a, b, phase, ea, eb, _, closed) =>
      && Ok(a) && Ok(b)
      && (phase == FirstA || phase == RefillA ==> ea.Empty?)
      && (phase == FirstA || phase == FirstB || phase == RefillB ==> eb.Empty?)
      && (ea.Empty? ==> phase == FirstA || phase == RefillA || Finished(a))
      && (eb.Empty? ==> phase == FirstA || phase == FirstB || phase == RefillB || Finished(b))
      && (closed ==> phase == Loop && ea.Empty? && eb.Empty?)
    case Drain(a, phase, ea, _, closed) =>
      && Ok(a)
      && (phase != Loop ==> ea.Empty?)
      && (ea.Empty? ==> phase != Loop || Finished(a))
      && (closed ==> phase == Loop && ea.Empty?)
  }

  function PhaseWork(phase: Phase): nat {
    match phase
    case FirstA => 2
    case FirstB | RefillA | RefillB => 1
    case Loop => 0
  }

  // An upper bound on the steps the threads below a node can still take.
  function Work(n: Node): nat {
    (if n.closed then 0 else 1) +
    match n
    case Source(feed, _, _) => |feed|
    case Worker(a, b, phase, ea, eb, _, _) =>
      Work(a) + Work(b) + PhaseWork(phase)
      + 2 * (|ea.Seq()| + |eb.Seq()| + |Pending(a)| + |Pending(b)|)
    case Drain(a, phase, ea, _, _) =>
      Work(a) + PhaseWork(phase) + 2 * (|ea.Seq()| + |Pending(a)|)
  }

  // ---------- Every step keeps what is to be delivered ----------

  lemma FinishedIsEmpty(n: Node)
    requires Ok(n) && Finished(n)
    ensures Pending(n) == []
  {
    match n
    case Source(_, _, _) =>
    case Worker(a, b, _, _, _, _, _) =>
      FinishedIsEmpty(a);
      FinishedIsEmpty(b);
    case Drain(a, _, _, _, _) =>
      FinishedIsEmpty(a);
  }

  lemma PopKeeps(n: Node)
    requires Ok(n) && CanPop(n)
    ensures Ok(Popped(n)) && Work(Popped(n)) == Work(n)
    ensures Pending(n) == Front(n).Seq() + Pending(Popped(n))
    ensures Front(n).Empty? ==> Finished(Popped(n))
  {
    hide Merge;
    assert ToCome(Popped(n)) == ToCome(n);
    if n.queue != [] {
      assert n.queue == [n.queue[0]] + Popped(n).queue;
      assert n.queue + ToCome(n) == [n.queue[0]] + (Popped(n).queue + ToCome(n));
    }
  }

  // Handing an item to the queue is the next step of the merge.
  lemma MergeTakesB(ea: Slot, eb: Slot, pa: seq<Event>, pb: seq<Event>)
    requires TakesB(ea, eb) && (ea.Empty? ==> pa == [])
    ensures Merge(ea.Seq() + pa, eb.Seq() + pb) == [eb.event] + Merge(ea.Seq() + pa, Empty.Seq() + pb)
  {
    assert (eb.Seq() + pb)[1..] == Empty.Seq() + pb;
  }

  lemma MergeTakesA(ea: Slot, eb: Slot, pa: seq<Event>, pb: seq<Event>)
    requires ea.Held? && !TakesB(ea, eb) && (eb.Empty? ==> pb == [])
    ensures Merge(ea.Seq() + pa, eb.Seq() + pb) == [ea.event] + Merge(Empty.Seq() + pa, eb.Seq() + pb)
  {
    assert (ea.Seq() + pa)[1..] == Empty.Seq() + pa;
    assert eb.Empty? ==> eb.Seq() + pb == [];
  }

  lemma QueueGrows(queue: seq<Event>, e: Event, rest: seq<Event>)
    ensures queue + ([e] + rest) == queue + [e] + rest
  {
  }

  lemma PushKeeps(n: Node)
    requires Ok(n) && n.Worker? && n.phase == Loop && !n.closed
    ensures Ok(Act(n)) && Pending(Act(n)) == Pending(n) && Work(Act(n)) < Work(n)
  {
    var Worker(a, b, _, ea, eb, queue, _) := n;
    if ea.Empty? {
      FinishedIsEmpty(a);
    }
    if eb.Empty? {
      FinishedIsEmpty(b);
    }
    hide Merge;
    var t := Act(n);
    if TakesB(ea, eb) {
      MergeTakesB(ea, eb, Pending(a), Pending(b));
      QueueGrows(queue, eb.event, ToCome(t));
    } else if ea.Held? {
      MergeTakesA(ea, eb, Pending(a), Pending(b));
      QueueGrows(queue, ea.event, ToCome(t));
    }
  }

  lemma PopAKeeps(n: Node)
    requires Ok(n) && n.Worker? && (n.phase == FirstA || n.phase == RefillA) && CanPop(n.a)
    ensures Ok(Act(n)) && Pending(Act(n)) == Pending(n) && Work(Act(n)) < Work(n)
  {
    hide Merge;
    PopKeeps(n.a);
    assert n.ea.Seq() + Pending(n.a) == Front(n.a).Seq() + Pending(Popped(n.a));
  }

  lemma PopBKeeps(n: Node)
    requires Ok(n) && n.Worker? && (n.phase == FirstB || n.phase == RefillB) && CanPop(n.b)
    ensures Ok(Act(n)) && Pending(Act(n)) == Pending(n) && Work(Act(n)) < Work(n)
  {
    hide Merge;
    PopKeeps(n.b);
    assert n.eb.Seq() + Pending(n.b) == Front(n.b).Seq() + Pending(Popped(n.b));
  }

  lemma SourceKeeps(n: Node)
    requires Ok(n) && n.Source? && !n.closed
    ensures Ok(Act(n)) && Pending(Act(n)) == Pending(n) && Work(Act(n)) < Work(n)
  {
    if n.feed != [] {
      QueueGrows(n.queue, n.feed[0], n.feed[1..]);
    }
  }

  lemma DrainKeeps(n: Node, bound: nat)
    requires Ok(n) && n.Drain? && CanAct(n, bound)
    ensures Ok(Act(n)) && Pending(Act(n)) == Pending(n) && Work(Act(n)) < Work(n)
  {
    hide Merge;
    if n.phase != Loop {
      PopKeeps(n.a);
      assert n.ea.Seq() + Pending(n.a) == Front(n.a).Seq() + Pending(Popped(n.a));
    } else if n.ea.Held? {
      QueueGrows(n.queue, n.ea.event, Pending(n.a));
      assert Empty.Seq() + Pending(n.a) == Pending(n.a);
    }
  }

  lemma ActOpen(n: Node, bound: nat)
    requires Ok(n) && CanAct(n, bound)
    ensures !n.closed
  {
  }

  lemma ActKeeps(n: Node, bound: nat)
    requires Ok(n) && CanAct(n, bound)
    ensures Ok(Act(n)) && Pending(Act(n)) == Pending(n) && Work(Act(n)) < Work(n)
    ensures !n.closed
  {
    ActOpen(n, bound);
    hide Ok, Act, Pending, Work;
    match n
    case Source(_, _, _) => SourceKeeps(n);
    case Drain(_, _, _, _, _) => DrainKeeps(n, bound);
    case Worker(_, _, phase, _, _, _, _) =>
      if phase == Loop {
        PushKeeps(n);
      } else if phase == FirstA || phase == RefillA {
        PopAKeeps(n);
      } else {
        PopBKeeps(n);
      }
  }

  lemma {:induction false} StepKeeps(n: Node, step: Step, bound: nat)
    requires Ok(n) && Enabled(n, step, bound)
    ensures Ok(Next(n, step, bound)) && Pending(Next(n, step, bound)) == Pending(n)
    ensures Work(Next(n, step, bound)) < Work(n)
    ensures n.closed ==> Next(n, step, bound).closed && Next(n, step, bound).queue == n.queue
  {
    match step
    case Here => ActKeeps(n, bound);
    case InA(s) => StepKeeps(n.a, s, bound);
    case InB(s) => StepKeeps(n.b, s, bound);
  }
}
