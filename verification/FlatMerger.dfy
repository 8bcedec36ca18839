// The single-threaded merge over a heap of at most one key per file.
module FlatMerger {
  import opened MarketData
  import opened StableMerge
  import opened Interleaving
  import Tree = MergerTheorems

  datatype HeapKey = HeapKey(tsRecv: i64, file: nat)

  // An earliest key; which of several is the heap's choice.
  predicate IsTop(heap: multiset<HeapKey>, top: HeapKey) {
    top in heap && forall k :: k in heap ==> top.tsRecv <= k.tsRecv
  }

  lemma {:induction false} TopExists(heap: multiset<HeapKey>) returns (top: HeapKey)
    requires heap != multiset{}
    ensures IsTop(heap, top)
    decreases |heap|
  {
    top :| top in heap;
    var rest := heap - multiset{top};
    if rest != multiset{} {
      var other := TopExists(rest);
      if other.tsRecv < top.tsRecv {
        top := other;
      }
    }
  }

  // ---------- What is left of each file ----------

  // The heap holds exactly one key for each asked file with an undelivered event, carrying
  // that event's time; the event itself is buffered and the rest is still queued.
  ghost predicate Represents(heap: multiset<HeapKey>, buf: seq<Event>, queues: seq<seq<Event>>,
                             waiting: seq<seq<Event>>, asked: nat) {
    && |buf| == |queues| == |waiting| && asked <= |buf|
    && (forall k :: k in heap ==> k.file < asked && heap[k] == 1)
    && (forall k :: k in heap ==> waiting[k.file] != [] && k.tsRecv == waiting[k.file][0].tsRecv)
    && (forall i :: 0 <= i < asked ==>
          if waiting[i] == [] then queues[i] == []
          else HeapKey(waiting[i][0].tsRecv, i) in heap && buf[i] == waiting[i][0] && queues[i] == waiting[i][1..])
    && forall i :: asked <= i < |waiting| ==> queues[i] == waiting[i]
  }

  ghost predicate Kept(files: seq<seq<Event>>, out: seq<Event>, src: seq<nat>, waiting: seq<seq<Event>>) {
    && |out| == |src| && |waiting| == |files|
    && (forall k :: 0 <= k < |src| ==> src[k] < |files|)
    && forall i :: 0 <= i < |files| ==> files[i] == Project(out, src, i) + waiting[i]
  }

  // Nothing delivered is later than anything still waiting.
  ghost predicate InOrder(out: seq<Event>, waiting: seq<seq<Event>>) {
    && Sorted(out) && AllSorted(waiting)
    && forall i, t :: 0 <= i < |waiting| && waiting[i] != [] && 0 <= t < |out| ==> out[t].tsRecv <= waiting[i][0].tsRecv
  }

  function Left(waiting: seq<seq<Event>>): nat {
    if waiting == [] then 0 else |waiting[0]| + Left(waiting[1..])
  }

  lemma {:induction false} LeftTake(waiting: seq<seq<Event>>, i: nat)
    requires i < |waiting| && waiting[i] != []
    ensures Left(waiting[i := waiting[i][1..]]) < Left(waiting)
  {
    var after := waiting[i := waiting[i][1..]];
    if i == 0 {
      assert after[1..] == waiting[1..];
    } else {
      LeftTake(waiting[1..], i - 1);
      assert after[1..] == waiting[1..][i - 1 := waiting[i][1..]];
    }
  }

  // ---------- One delivery ----------

  lemma DeliverKeeps(files: seq<seq<Event>>, out: seq<Event>, src: seq<nat>, waiting: seq<seq<Event>>, i: nat)
    requires Kept(files, out, src, waiting) && i < |waiting| && waiting[i] != []
    ensures Kept(files, out + [waiting[i][0]], src + [i], waiting[i := waiting[i][1..]])
  {
    var e, after := waiting[i][0], waiting[i := waiting[i][1..]];
    forall j | 0 <= j < |files|
      ensures files[j] == Project(out + [e], src + [i], j) + after[j]
    {
      ProjectSnoc(out, src, e, i, j);
      if j == i {
        assert waiting[i] == [e] + after[i];
        assert Project(out, src, i) + ([e] + after[i]) == Project(out, src, i) + [e] + after[i];
      }
    }
  }

  lemma DeliverInOrder(out: seq<Event>, waiting: seq<seq<Event>>, i: nat)
    requires InOrder(out, waiting) && i < |waiting| && waiting[i] != []
    requires forall j :: 0 <= j < |waiting| && waiting[j] != [] ==> waiting[i][0].tsRecv <= waiting[j][0].tsRecv
    ensures InOrder(out + [waiting[i][0]], waiting[i := waiting[i][1..]])
  {
  }

  lemma TopIsEarliest(heap: multiset<HeapKey>, buf: seq<Event>, queues: seq<seq<Event>>, waiting: seq<seq<Event>>,
      top: HeapKey)
    requires Represents(heap, buf, queues, waiting, |waiting|) && IsTop(heap, top)
    ensures waiting[top.file] != [] && buf[top.file] == waiting[top.file][0]
    ensures forall j :: 0 <= j < |waiting| && waiting[j] != [] ==> waiting[top.file][0].tsRecv <= waiting[j][0].tsRecv
  {
  }

  // File i popped into its buffer slot and its key pushed, unless it has ended.
  function Refilled(heap: multiset<HeapKey>, buf: seq<Event>, queues: seq<seq<Event>>, i: nat)
    : (multiset<HeapKey>, seq<Event>, seq<seq<Event>>)
    requires i < |buf| == |queues|
  {
    if queues[i] == [] then (heap, buf, queues)
    else (heap + multiset{HeapKey(queues[i][0].tsRecv, i)}, buf[i := queues[i][0]], queues[i := queues[i][1..]])
  }

  lemma LoadKeeps(heap: multiset<HeapKey>, buf: seq<Event>, queues: seq<seq<Event>>, waiting: seq<seq<Event>>, i: nat)
    requires Represents(heap, buf, queues, waiting, i) && i < |waiting|
    ensures var r := Refilled(heap, buf, queues, i); Represents(r.0, r.1, r.2, waiting, i + 1)
  {
  }

  lemma RefillKeeps(heap: multiset<HeapKey>, buf: seq<Event>, queues: seq<seq<Event>>, waiting: seq<seq<Event>>,
      top: HeapKey)
    requires Represents(heap, buf, queues, waiting, |waiting|) && IsTop(heap, top)
    ensures top.file < |waiting| && waiting[top.file] != []
    ensures var after := waiting[top.file := waiting[top.file][1..]];
      var r := Refilled(heap - multiset{top}, buf, queues, top.file);
      Represents(r.0, r.1, r.2, after, |after|)
  {
  }

  // ---------- The merge ----------

  // Pop file i into its buffer slot and push its key; nothing happens when the file has ended.
  method Refill(queues: array<seq<Event>>, buf: array<Event>, heap: multiset<HeapKey>, i: nat)
    returns (next: multiset<HeapKey>)
    requires i < queues.Length == buf.Length
    modifies queues, buf
    ensures (next, buf[..], queues[..]) == Refilled(heap, old(buf[..]), old(queues[..]), i)
  {
    next := heap;
    if queues[i] != [] {
      buf[i], queues[i] := queues[i][0], queues[i][1..];
      next := heap + multiset{HeapKey(buf[i].tsRecv, i)};
    }
  }

  // The first event of every file.
  method Load(queues: array<seq<Event>>, buf: array<Event>) returns (heap: multiset<HeapKey>)
    requires queues.Length == buf.Length
    modifies queues, buf
    ensures Represents(heap, buf[..], queues[..], old(queues[..]), buf.Length)
  {
    ghost var files := queues[..];
    heap := multiset{};
    StartKeeps(files, buf[..]);
    hide *;
    var i := 0;
    while i < queues.Length
      invariant 0 <= i <= queues.Length == buf.Length == |files|
      invariant Represents(heap, buf[..], queues[..], files, i)
    {
      LoadKeeps(heap, buf[..], queues[..], files, i);
      heap := Refill(queues, buf, heap, i);
      i := i + 1;
    }
  }

  // Deliver an earliest buffered event and refill its file.
  method Deliver(queues: array<seq<Event>>, buf: array<Event>, heap: multiset<HeapKey>, ghost waiting: seq<seq<Event>>)
    returns (next: multiset<HeapKey>, e: Event, i: nat)
    requires heap != multiset{} && |waiting| == queues.Length == buf.Length
    requires Represents(heap, buf[..], queues[..], waiting, |waiting|)
    modifies queues, buf
    ensures i < |waiting| && waiting[i] != [] && e == waiting[i][0]
    ensures forall j :: 0 <= j < |waiting| && waiting[j] != [] ==> e.tsRecv <= waiting[j][0].tsRecv
    ensures Represents(next, buf[..], queues[..], waiting[i := waiting[i][1..]], |waiting|)
  {
    hide *;
    ghost var key := TopExists(heap);
    var top :| IsTop(heap, top);
    TopIsEarliest(heap, buf[..], queues[..], waiting, top);
    RefillKeeps(heap, buf[..], queues[..], waiting, top);
    i := top.file;
    assert queues[..][i] == queues[i] && buf[..][i] == buf[i];
    e := buf[i];
    next := Refill(queues, buf, heap - multiset{top}, i);
  }

  method MergeFiles(files: seq<seq<Event>>) returns (out: seq<Event>, src: seq<nat>)
    ensures IsInterleaving(out, src, files)
    ensures AllSorted(files) ==> Sorted(out)
  {
    var queues := new seq<Event>[|files|](i requires 0 <= i < |files| => files[i]);
    var buf := new Event[|files|];
    ghost var waiting := files;
    out, src := [], [];
    assert queues[..] == files;
    StartKeeps(files, buf[..]);
    hide *;
    var heap := Load(queues, buf);
    while heap != multiset{}
      invariant |waiting| == |files| && Represents(heap, buf[..], queues[..], waiting, |waiting|)
      invariant Kept(files, out, src, waiting)
      invariant AllSorted(files) ==> InOrder(out, waiting)
      decreases Left(waiting)
    {
      var e, i;
      heap, e, i := Deliver(queues, buf, heap, waiting);
      DeliverKeeps(files, out, src, waiting, i);
      if AllSorted(files) {
        DeliverInOrder(out, waiting, i);
      }
      LeftTake(waiting, i);
      out, src := out + [e], src + [i];
      waiting := waiting[i := waiting[i][1..]];
    }
    NothingWaits(buf[..], queues[..], waiting);
    AllDelivered(files, out, src, waiting);
  }

  lemma NothingWaits(buf: seq<Event>, queues: seq<seq<Event>>, waiting: seq<seq<Event>>)
    requires Represents(multiset{}, buf, queues, waiting, |waiting|)
    ensures forall i :: 0 <= i < |waiting| ==> waiting[i] == []
  {
  }

  lemma StartKeeps(files: seq<seq<Event>>, buf: seq<Event>)
    requires |buf| == |files|
    ensures Represents(multiset{}, buf, files, files, 0)
    ensures Kept(files, [], [], files)
    ensures AllSorted(files) ==> InOrder([], files)
  {
  }

  lemma AllDelivered(files: seq<seq<Event>>, out: seq<Event>, src: seq<nat>, waiting: seq<seq<Event>>)
    requires Kept(files, out, src, waiting) && forall i :: 0 <= i < |waiting| ==> waiting[i] == []
    ensures IsInterleaving(out, src, files)
    ensures InOrder(out, waiting) ==> Sorted(out)
  {
  }

  // ---------- Agreement with the tree of workers ----------

  lemma {:induction false} AtTimeCount(s: seq<Event>, t: int, e: Event)
    ensures multiset(AtTime(s, t))[e] == if e.tsRecv == t then multiset(s)[e] else 0
  {
    if s != [] {
      AtTimeCount(s[1..], t, e);
      Peel(s);
      if s[0].tsRecv == t {
        Peel(AtTime(s, t));
        assert AtTime(s, t)[1..] == AtTime(s[1..], t);
      }
    }
  }

  // On sorted files the two mergers show the same times position by position and, at every
  // instant, the same events, whatever the heap's choices and the threads' schedule:
  // only the order of files within an instant can differ.
  lemma MergersAgree(flat: seq<Event>, src: seq<nat>, run: seq<Tree.Net>, moves: seq<Tree.Move>, bound: nat)
    requires Tree.IsRun(run, moves, bound) && Tree.Initial(run[0].root)
    requires forall move :: !Tree.CanMove(run[|moves|], move, bound)
    requires AllSorted(Tree.Leaves(run[0].root))
    requires IsInterleaving(flat, src, Tree.Leaves(run[0].root)) && Sorted(flat)
    ensures Times(flat) == Times(run[|moves|].received)
    ensures multiset(flat) == multiset(run[|moves|].received)
    ensures forall t: int :: multiset(AtTime(flat, t)) == multiset(AtTime(run[|moves|].received, t))
  {
    var stable, files := run[|moves|].received, Tree.Leaves(run[0].root);
    Tree.DeliversEverything(run, moves, bound);
    Tree.ShapeAndScheduleDoNotMatter(run, moves, bound, run, moves, bound);
    InterleavingContents(flat, src, files);
    SameTimes(flat, stable);
    forall t: int
      ensures multiset(AtTime(flat, t)) == multiset(AtTime(stable, t))
    {
      forall e: Event
        ensures multiset(AtTime(flat, t))[e] == multiset(AtTime(stable, t))[e]
      {
        AtTimeCount(flat, t, e);
        AtTimeCount(stable, t, e);
      }
    }
  }
}
