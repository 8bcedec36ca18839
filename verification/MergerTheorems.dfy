// Whole runs of the merging threads: every schedule ends, none gets stuck, and all
// of them deliver the same output, which for sorted files is the stable merge.
module MergerTheorems {
  import opened MarketData
  import opened StableMerge
  import opened HierarchyMerger
  import opened Interleaving

  // The tree of threads and the reader of the output queue.
  datatype Net = Net(root: Node, received: seq<Event>)

  datatype Move = Take | Thread(step: Step)

  predicate CanMove(net: Net, move: Move, bound: nat) {
    match move
    case Take => net.root.queue != []
    case Thread(step) => Enabled(net.root, step, bound)
  }

  function Moved(net: Net, move: Move, bound: nat): Net
    requires CanMove(net, move, bound)
  {
    match move
    case Take => Net(Popped(net.root), net.received + [net.root.queue[0]])
    case Thread(step) => Net(Next(net.root, step, bound), net.received)
  }

  predicate IsRun(run: seq<Net>, moves: seq<Move>, bound: nat) {
    && |run| == |moves| + 1
    && run[0].received == []
    && forall i :: 0 <= i < |moves| ==> CanMove(run[i], moves[i], bound) && run[i + 1] == Moved(run[i], moves[i], bound)
  }

  function NetWork(net: Net): nat {
    Work(net.root) + |Pending(net.root)|
  }

  lemma MoveKeeps(net: Net, move: Move, bound: nat)
    requires Ok(net.root) && CanMove(net, move, bound)
    ensures Ok(Moved(net, move, bound).root)
    ensures Moved(net, move, bound).received + Pending(Moved(net, move, bound).root) == net.received + Pending(net.root)
    ensures NetWork(Moved(net, move, bound)) < NetWork(net)
  {
    hide Ok, Work, Pending, Enabled, Next;
    match move
    case Take =>
      PopKeeps(net.root);
      QueueGrows(net.received, net.root.queue[0], Pending(Popped(net.root)));
    case Thread(step) => StepKeeps(net.root, step, bound);
  }

  // At every moment of every run, what was received and what is still in the net is the
  // same sequence, and every move uses up some of the work.
  lemma {:induction false} RunKeeps(run: seq<Net>, moves: seq<Move>, bound: nat, i: nat)
    requires IsRun(run, moves, bound) && Ok(run[0].root) && i < |run|
    ensures Ok(run[i].root)
    ensures run[i].received + Pending(run[i].root) == Pending(run[0].root)
    ensures NetWork(run[i]) + i <= NetWork(run[0])
  {
    hide Ok, Pending, CanMove, Moved, NetWork;
    if i == 0 {
      assert run[0].received + Pending(run[0].root) == Pending(run[0].root);
    } else {
      RunKeeps(run, moves, bound, i - 1);
      MoveKeeps(run[i - 1], moves[i - 1], bound);
    }
  }

  // Every schedule ends: no run is longer than the work of its first state.
  lemma Terminates(run: seq<Net>, moves: seq<Move>, bound: nat)
    requires IsRun(run, moves, bound) && Ok(run[0].root)
    ensures |moves| <= NetWork(run[0])
  {
    RunKeeps(run, moves, bound, |moves|);
  }

  // No queue of the tree holds more than the bound.
  predicate Bounded(n: Node, bound: nat) {
    && |n.queue| <= bound
    && (n.Source? || Bounded(n.a, bound))
    && (n.Worker? ==> Bounded(n.b, bound))
  }

  lemma PopBounded(n: Node, bound: nat)
    requires Bounded(n, bound)
    ensures Bounded(Popped(n), bound)
  {
  }

  lemma {:induction false} StepBounded(n: Node, step: Step, bound: nat)
    requires bound > 0 && Bounded(n, bound) && Enabled(n, step, bound)
    ensures Bounded(Next(n, step, bound), bound)
  {
    match step
    case Here =>
      if !n.Source? {
        PopBounded(n.a, bound);
      }
      if n.Worker? {
        PopBounded(n.b, bound);
      }
      hide Popped;
    case InA(s) => StepBounded(n.a, s, bound);
    case InB(s) => StepBounded(n.b, s, bound);
  }

  // With bounded queues, no run ever fills one beyond its bound.
  lemma {:induction false} QueuesBounded(run: seq<Net>, moves: seq<Move>, bound: nat, i: nat)
    requires IsRun(run, moves, bound) && bound > 0 && Bounded(run[0].root, bound) && i < |run|
    ensures Bounded(run[i].root, bound)
  {
    hide Bounded, Enabled, Next, Popped;
    if i > 0 {
      QueuesBounded(run, moves, bound, i - 1);
      var net := run[i - 1];
      match moves[i - 1]
      case Take => PopBounded(net.root, bound);
      case Thread(step) => StepBounded(net.root, step, bound);
    }
  }

  // Below a node whose queue has room and is still open, some thread can move.
  lemma {:induction false} SomeStep(n: Node, bound: nat) returns (step: Step)
    requires Ok(n) && !n.closed && Room(n.queue, bound)
    ensures Enabled(n, step, bound)
  {
    step := Here;
    if !CanAct(n, bound) {
      if n.Worker? && (n.phase == FirstB || n.phase == RefillB) {
        var s := SomeStep(n.b, bound);
        step := InB(s);
      } else {
        var s := SomeStep(n.a, bound);
        step := InA(s);
      }
    }
  }

  // No deadlock: a run that cannot go on has closed its output and delivered everything.
  lemma DeadlockFree(run: seq<Net>, moves: seq<Move>, bound: nat)
    requires IsRun(run, moves, bound) && Ok(run[0].root)
    requires forall move :: !CanMove(run[|moves|], move, bound)
    ensures run[|moves|].root.closed && run[|moves|].root.queue == []
    ensures run[|moves|].received == Pending(run[0].root)
  {
    var net := run[|moves|];
    RunKeeps(run, moves, bound, |moves|);
    assert !CanMove(net, Take, bound);
    if !net.root.closed {
      var step := SomeStep(net.root, bound);
      assert CanMove(net, Thread(step), bound);
    }
    FinishedIsEmpty(net.root);
  }

  // No thread ever pushes to a queue that has been closed, nor closes one twice.
  lemma {:induction false} NeverTouchesClosed(n: Node, step: Step, bound: nat)
    requires Ok(n) && Enabled(n, step, bound)
    ensures !Acting(n, step).closed
  {
    match step
    case Here => ActKeeps(n, bound);
    case InA(s) => NeverTouchesClosed(n.a, s, bound);
    case InB(s) => NeverTouchesClosed(n.b, s, bound);
  }

  // The node whose thread a step moves.
  function Acting(n: Node, step: Step): Node {
    match step
    case Here => n
    case InA(s) => if n.Source? then n else Acting(n.a, s)
    case InB(s) => if n.Worker? then Acting(n.b, s) else n
  }

  // ---------- The tree of workers ----------

  predicate Initial(n: Node) {
    && n.queue == [] && !n.closed
    && match n
       case Source(_, _, _) => true
       case Worker(a, b, phase, ea, eb, _, _) => Initial(a) && Initial(b) && phase == FirstA && ea == eb == Empty
       case Drain(a, phase, ea, _, _) => Initial(a) && phase == RefillA && ea == Empty
  }

  // The files below a node, from left to right.
  function Leaves(n: Node): seq<seq<Event>> {
    match n
    case Source(feed, _, _) => [feed]
    case Worker(a, b, _, _, _, _, _) => Leaves(a) + Leaves(b)
    case Drain(a, _, _, _, _) => Leaves(a)
  }

  function LeavesOf(nodes: seq<Node>): seq<seq<Event>> {
    if nodes == [] then [] else Leaves(nodes[0]) + LeavesOf(nodes[1..])
  }

  lemma {:induction false} LeavesOfAppend(a: seq<Node>, b: seq<Node>)
    ensures LeavesOf(a + b) == LeavesOf(a) + LeavesOf(b)
  {
    if a == [] {
      assert a + b == b;
    } else {
      assert (a + b)[0] == a[0] && (a + b)[1..] == a[1..] + b;
      LeavesOfAppend(a[1..], b);
      assert Leaves(a[0]) + (LeavesOf(a[1..]) + LeavesOf(b)) == Leaves(a[0]) + LeavesOf(a[1..]) + LeavesOf(b);
    }
  }

  function Paired(a: Node, b: Node): Node {
    Worker(a, b, FirstA, Empty, Empty, [], false)
  }

  lemma TwoLeaves(a: Node, b: Node)
    ensures LeavesOf([a, b]) == LeavesOf([Paired(a, b)]) == Leaves(a) + Leaves(b)
    ensures LeavesOf([a]) == Leaves(a)
  {
    assert [a, b][1..] == [b];
    assert LeavesOf([b]) == Leaves(b) + LeavesOf([]);
    assert LeavesOf([Paired(a, b)]) == Leaves(Paired(a, b)) + LeavesOf([]);
    assert LeavesOf([a]) == Leaves(a) + LeavesOf([]);
  }

  lemma PairInitial(a: Node, b: Node)
    requires Initial(a) && Initial(b)
    ensures Initial(Paired(a, b))
  {
  }

  lemma LeftOver(nxt: seq<Node>, cur: seq<Node>, i: nat)
    requires i < |cur| && LeavesOf(nxt) == LeavesOf(cur[..i])
    ensures LeavesOf(nxt + [cur[i]]) == LeavesOf(cur[..i + 1])
  {
    LeavesOfAppend(cur[..i], [cur[i]]);
    LeavesOfAppend(nxt, [cur[i]]);
    assert cur[..i + 1] == cur[..i] + [cur[i]];
  }

  lemma PairedUp(nxt: seq<Node>, cur: seq<Node>, i: nat)
    requires i + 1 < |cur| && LeavesOf(nxt) == LeavesOf(cur[..i])
    ensures LeavesOf(nxt + [Paired(cur[i], cur[i + 1])]) == LeavesOf(cur[..i + 2])
  {
    TwoLeaves(cur[i], cur[i + 1]);
    LeavesOfAppend(cur[..i], [cur[i], cur[i + 1]]);
    LeavesOfAppend(nxt, [Paired(cur[i], cur[i + 1])]);
    assert cur[..i + 2] == cur[..i] + [cur[i], cur[i + 1]];
  }

  // One round: neighbours are paired, a leftover moves up unpaired.
  method PairRound(cur: seq<Node>) returns (nxt: seq<Node>)
    requires forall i :: 0 <= i < |cur| ==> Initial(cur[i])
    ensures |nxt| == (|cur| + 1) / 2
    ensures forall i :: 0 <= i < |nxt| ==> Initial(nxt[i])
    ensures LeavesOf(nxt) == LeavesOf(cur)
  {
    hide LeavesOf, Initial;
    nxt := [];
    var i := 0;
    assert cur[..0] == [];
    while i < |cur|
      invariant i % 2 == 0 || i == |cur|
      invariant 0 <= i <= |cur| && |nxt| == (i + 1) / 2
      invariant forall j :: 0 <= j < |nxt| ==> Initial(nxt[j])
      invariant LeavesOf(nxt) == LeavesOf(cur[..i])
    {
      if i + 1 == |cur| {
        LeftOver(nxt, cur, i);
        nxt := nxt + [cur[i]];
        i := i + 1;
      } else {
        var out := Paired(cur[i], cur[i + 1]);
        PairedUp(nxt, cur, i);
        PairInitial(cur[i], cur[i + 1]);
        nxt := nxt + [out];
        i := i + 2;
      }
    }
    assert cur[..i] == cur;
  }

  // The pairing loop: whatever the number of files, the tree keeps them in file order.
  method BuildTree(files: seq<seq<Event>>) returns (root: Node)
    ensures files == [] ==> root == Source([], [], true)
    ensures files != [] ==> Initial(root) && Leaves(root) == files
  {
    if files == [] {
      return Source([], [], true);
    }
    var cur := seq(|files|, i requires 0 <= i < |files| => Source(files[i], [], false));
    SourcesLeaves(files, cur);
    while |cur| > 2
      invariant |cur| >= 1
      invariant forall i :: 0 <= i < |cur| ==> Initial(cur[i])
      invariant LeavesOf(cur) == files
      decreases |cur|
    {
      cur := PairRound(cur);
    }
    if |cur| == 2 {
      assert cur == [cur[0], cur[1]];
      TwoLeaves(cur[0], cur[1]);
      root := Paired(cur[0], cur[1]);
    } else {
      assert cur == [cur[0]];
      TwoLeaves(cur[0], cur[0]);
      root := Drain(cur[0], RefillA, Empty, [], false);
    }
  }

  lemma {:induction false} SourcesLeaves(files: seq<seq<Event>>, cur: seq<Node>)
    requires |cur| == |files| && forall i :: 0 <= i < |files| ==> cur[i] == Source(files[i], [], false)
    ensures LeavesOf(cur) == files
  {
    if files != [] {
      SourcesLeaves(files[1..], cur[1..]);
      assert files == [files[0]] + files[1..];
    }
  }

  // ---------- The output ----------

  lemma {:induction false} InitialOk(n: Node)
    requires Initial(n)
    ensures Ok(n)
  {
    match n
    case Source(_, _, _) =>
    case Worker(a, b, _, _, _, _, _) =>
      InitialOk(a);
      InitialOk(b);
    case Drain(a, _, _, _, _) => InitialOk(a);
  }

  lemma InitialPending(n: Node)
    requires Initial(n)
    ensures n.Source? ==> Pending(n) == n.feed
    ensures n.Worker? ==> Pending(n) == Merge(Pending(n.a), Pending(n.b))
    ensures n.Drain? ==> Pending(n) == Pending(n.a)
  {
    hide Merge;
    assert Pending(n) == ToCome(n);
    if !n.Source? {
      assert Empty.Seq() + Pending(n.a) == Pending(n.a);
    }
    if n.Worker? {
      assert Empty.Seq() + Pending(n.b) == Pending(n.b);
    }
  }

  // Which file each event of the output comes from.
  function Origins(n: Node): seq<nat> {
    match n
    case Source(feed, _, _) => seq(|feed|, _ => 0)
    case Worker(a, b, _, _, _, _, _) =>
      if |Pending(a)| == |Origins(a)| && |Pending(b)| == |Origins(b)| then
        MergeOrigins(Pending(a), Pending(b), Origins(a), Shifted(Origins(b), |Leaves(a)|))
      else []
    case Drain(a, _, _, _, _) => Origins(a)
  }

  lemma {:induction false} OneFileProject(file: seq<Event>, src: seq<nat>)
    requires |file| == |src| && forall k :: 0 <= k < |src| ==> src[k] == 0
    ensures Project(file, src, 0) == file
  {
    if file != [] {
      OneFileProject(file[1..], src[1..]);
    }
  }

  // Whatever the shape of the tree and however unordered the files, every file comes
  // through whole and in its own order.
  lemma {:induction false} TreeInterleaves(n: Node)
    requires Initial(n)
    ensures IsInterleaving(Pending(n), Origins(n), Leaves(n))
  {
    InitialPending(n);
    match n
    case Source(feed, _, _) => OneFileProject(feed, Origins(n));
    case Worker(a, b, _, _, _, _, _) =>
      TreeInterleaves(a);
      TreeInterleaves(b);
      MergeInterleaves(Pending(a), Origins(a), Leaves(a), Pending(b), Origins(b), Leaves(b));
    case Drain(a, _, _, _, _) => TreeInterleaves(a);
  }

  // A run that cannot go on has delivered an interleaving of the files.
  lemma DeliversEverything(run: seq<Net>, moves: seq<Move>, bound: nat)
    requires IsRun(run, moves, bound) && Initial(run[0].root)
    requires forall move :: !CanMove(run[|moves|], move, bound)
    ensures IsInterleaving(run[|moves|].received, Origins(run[0].root), Leaves(run[0].root))
    ensures multiset(run[|moves|].received) == multiset(Concat(Leaves(run[0].root)))
  {
    InitialOk(run[0].root);
    DeadlockFree(run, moves, bound);
    TreeInterleaves(run[0].root);
    InterleavingContents(Pending(run[0].root), Origins(run[0].root), Leaves(run[0].root));
  }

  lemma OneFile(file: seq<Event>)
    ensures Concat([file]) == file
  {
    assert Concat([file]) == file + Concat([]);
  }

  // For sorted files the output is the stable merge, whatever the shape of the tree.
  lemma {:induction false} TreeIsStableMerge(n: Node)
    requires Initial(n) && AllSorted(Leaves(n))
    ensures IsStableMerge(Pending(n), Leaves(n))
  {
    hide Merge, AtTime, Concat, Sorted, Pending, ToCome;
    InitialPending(n);
    match n
    case Source(feed, _, _) =>
      assert Leaves(n)[0] == feed;
      OneFile(feed);
    case Worker(a, b, _, _, _, _, _) =>
      assert AllSorted(Leaves(a)) by {
        assert forall i :: 0 <= i < |Leaves(a)| ==> Leaves(a)[i] == Leaves(n)[i];
      }
      assert AllSorted(Leaves(b)) by {
        assert forall i :: 0 <= i < |Leaves(b)| ==> Leaves(b)[i] == Leaves(n)[|Leaves(a)| + i];
      }
      TreeIsStableMerge(a);
      TreeIsStableMerge(b);
      MergeSorted(Pending(a), Pending(b));
      forall t: int
        ensures AtTime(Pending(n), t) == AtTime(Concat(Leaves(n)), t)
      {
        MergeAtTime(Pending(a), Pending(b), t);
        ConcatAppend(Leaves(a), Leaves(b));
        AtTimeAppend(Concat(Leaves(a)), Concat(Leaves(b)), t);
      }
    case Drain(a, _, _, _, _) => TreeIsStableMerge(a);
  }

  // Two trees over the same sorted files deliver the same events in the same order,
  // under any two schedules and any two queue bounds, once neither can go on.
  lemma ShapeAndScheduleDoNotMatter(run: seq<Net>, moves: seq<Move>, bound: nat,
                                    run': seq<Net>, moves': seq<Move>, bound': nat)
    requires IsRun(run, moves, bound) && IsRun(run', moves', bound')
    requires Initial(run[0].root) && Initial(run'[0].root)
    requires Leaves(run[0].root) == Leaves(run'[0].root) && AllSorted(Leaves(run[0].root))
    requires forall move :: !CanMove(run[|moves|], move, bound)
    requires forall move :: !CanMove(run'[|moves'|], move, bound')
    ensures run[|moves|].received == run'[|moves'|].received
    ensures IsStableMerge(run[|moves|].received, Leaves(run[0].root))
  {
    InitialOk(run[0].root);
    InitialOk(run'[0].root);
    DeadlockFree(run, moves, bound);
    DeadlockFree(run', moves', bound');
    TreeIsStableMerge(run[0].root);
    TreeIsStableMerge(run'[0].root);
    StableMergeUnique(Pending(run[0].root), Pending(run'[0].root), Leaves(run[0].root));
  }
}
