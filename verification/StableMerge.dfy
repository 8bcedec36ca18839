// Merging event streams by receive time: the merge of two streams that a worker
// performs, and what makes the merge of many sorted streams unique.
module StableMerge {
  import opened MarketData
  import opened Sequences

  ghost predicate AllSorted(files: seq<seq<Event>>) {
    forall i :: 0 <= i < |files| ==> Sorted(files[i])
  }

  ghost predicate Sorted(s: seq<Event>) {
    forall i, j :: 0 <= i <= j < |s| ==> s[i].tsRecv <= s[j].tsRecv
  }

  // The events received at one instant, in order.
  function AtTime(s: seq<Event>, t: int): seq<Event> {
    if s == [] then []
    else if s[0].tsRecv == t then [s[0]] + AtTime(s[1..], t)
    else AtTime(s[1..], t)
  }

  function Times(s: seq<Event>): seq<int> {
    seq(|s|, i requires 0 <= i < |s| => s[i].tsRecv)
  }

  function Concat(files: seq<seq<Event>>): seq<Event> {
    if files == [] then [] else files[0] + Concat(files[1..])
  }

  // Two streams merged; the second goes first only when strictly earlier.
  function Merge(a: seq<Event>, b: seq<Event>): seq<Event>
    decreases |a| + |b|
  {
    if a == [] then b
    else if b == [] then a
    else if a[0].tsRecv > b[0].tsRecv then [b[0]] + Merge(a, b[1..])
    else [a[0]] + Merge(a[1..], b)
  }

  // The merge of many files ordered by (receive time, file index, position):
  // sorted by time, and within an instant file by file, each in its own order.
  ghost predicate IsStableMerge(s: seq<Event>, files: seq<seq<Event>>) {
    Sorted(s) && forall t: int :: AtTime(s, t) == AtTime(Concat(files), t)
  }

  lemma {:induction false} AtTimeAppend(a: seq<Event>, b: seq<Event>, t: int)
    ensures AtTime(a + b, t) == AtTime(a, t) + AtTime(b, t)
  {
    if a == [] {
      assert a + b == b;
    } else {
      assert (a + b)[0] == a[0] && (a + b)[1..] == a[1..] + b;
      AtTimeAppend(a[1..], b, t);
      if a[0].tsRecv == t {
        assert [a[0]] + (AtTime(a[1..], t) + AtTime(b, t)) == [a[0]] + AtTime(a[1..], t) + AtTime(b, t);
      }
    }
  }

  lemma {:induction false} ConcatAppend(a: seq<seq<Event>>, b: seq<seq<Event>>)
    ensures Concat(a + b) == Concat(a) + Concat(b)
  {
    if a == [] {
      assert a + b == b;
      assert [] + Concat(b) == Concat(b);
    } else {
      assert (a + b)[0] == a[0] && (a + b)[1..] == a[1..] + b;
      ConcatAppend(a[1..], b);
      assert a[0] + (Concat(a[1..]) + Concat(b)) == a[0] + Concat(a[1..]) + Concat(b);
    }
  }

  lemma {:induction false} LaterThan(s: seq<Event>, t: int)
    requires forall i :: 0 <= i < |s| ==> s[i].tsRecv > t
    ensures AtTime(s, t) == []
  {
    if s != [] {
      LaterThan(s[1..], t);
    }
  }

  lemma Peel<T>(s: seq<T>)
    requires s != []
    ensures multiset(s) == multiset(s[1..]) + multiset{s[0]}
  {
    assert s == [s[0]] + s[1..];
  }

  // Everything in a merge of sorted streams is at least as late as the earlier head.
  lemma {:induction false} MergeBound(a: seq<Event>, b: seq<Event>, t: int)
    requires forall i :: 0 <= i < |a| ==> t <= a[i].tsRecv
    requires forall i :: 0 <= i < |b| ==> t <= b[i].tsRecv
    ensures forall i :: 0 <= i < |Merge(a, b)| ==> t <= Merge(a, b)[i].tsRecv
    decreases |a| + |b|
  {
    if a == [] || b == [] {
    } else if a[0].tsRecv > b[0].tsRecv {
      MergeBound(a, b[1..], t);
    } else {
      MergeBound(a[1..], b, t);
    }
  }

  lemma {:induction false} MergeSorted(a: seq<Event>, b: seq<Event>)
    requires Sorted(a) && Sorted(b)
    ensures Sorted(Merge(a, b))
    decreases |a| + |b|
  {
    if a == [] || b == [] {
    } else if a[0].tsRecv > b[0].tsRecv {
      MergeSorted(a, b[1..]);
      MergeBound(a, b[1..], b[0].tsRecv);
    } else {
      MergeSorted(a[1..], b);
      MergeBound(a[1..], b, a[0].tsRecv);
    }
  }

  // Within an instant, the first stream's events come before the second's.
  lemma {:induction false} MergeAtTime(a: seq<Event>, b: seq<Event>, t: int)
    requires Sorted(a) && Sorted(b)
    ensures AtTime(Merge(a, b), t) == AtTime(a, t) + AtTime(b, t)
    decreases |a| + |b|
  {
    if a == [] || b == [] {
    } else if a[0].tsRecv > b[0].tsRecv {
      MergeAtTime(a, b[1..], t);
      assert Merge(a, b)[1..] == Merge(a, b[1..]);
      if b[0].tsRecv == t {
        LaterThan(a, t);
      }
    } else {
      MergeAtTime(a[1..], b, t);
      assert Merge(a, b)[1..] == Merge(a[1..], b);
    }
  }

  // Sorted streams with the same events in the same order at every instant are the same stream.
  lemma {:induction false} SortedUnique(a: seq<Event>, b: seq<Event>)
    requires Sorted(a) && Sorted(b)
    requires forall t: int :: AtTime(a, t) == AtTime(b, t)
    ensures a == b
  {
    if a == [] && b == [] {
    } else {
      HeadPresent(a, b);
      HeadPresent(b, a);
      var now := a[0].tsRecv;
      assert AtTime(a, now)[0] == a[0] && AtTime(b, now)[0] == b[0];
      forall t: int
        ensures AtTime(a[1..], t) == AtTime(b[1..], t)
      {
        assert AtTime(a, t) == AtTime(b, t);
        if now == t {
          assert [a[0]] + AtTime(a[1..], t) == [b[0]] + AtTime(b[1..], t);
          assert AtTime(a[1..], t) == AtTime(a, t)[1..];
          assert AtTime(b[1..], t) == AtTime(b, t)[1..];
        }
      }
      SortedUnique(a[1..], b[1..]);
    }
  }

  lemma HeadPresent(a: seq<Event>, b: seq<Event>)
    requires Sorted(a) && Sorted(b)
    requires forall t: int :: AtTime(a, t) == AtTime(b, t)
    ensures a != [] ==> b != [] && b[0].tsRecv <= a[0].tsRecv
  {
    if a != [] {
      var t := a[0].tsRecv;
      assert AtTime(a, t) != [];
      if b == [] || b[0].tsRecv > t {
        LaterThan(b, t);
      }
    }
  }

  // There is at most one merge ordered by (receive time, file index, position).
  lemma StableMergeUnique(a: seq<Event>, b: seq<Event>, files: seq<seq<Event>>)
    requires IsStableMerge(a, files) && IsStableMerge(b, files)
    ensures a == b
  {
    SortedUnique(a, b);
  }

  lemma Pull<T>(s: seq<T>, k: nat)
    requires k < |s|
    ensures multiset(s) == multiset(Without(s, k)) + multiset{s[k]}
  {
    assert s == s[..k] + [s[k]] + s[k + 1..];
  }

  lemma CancelOne<T>(p: multiset<T>, q: multiset<T>, x: T)
    requires p + multiset{x} == q + multiset{x}
    ensures p == q
  {
    assert p == (p + multiset{x}) - multiset{x};
    assert q == (q + multiset{x}) - multiset{x};
  }

  lemma TimesPull(s: seq<Event>, k: nat)
    requires k < |s|
    ensures multiset(Times(s)) == multiset(Times(Without(s, k))) + multiset{s[k].tsRecv as int}
  {
    assert Times(Without(s, k)) == Without(Times(s), k);
    Pull(Times(s), k);
  }

  lemma SameSize<T>(a: seq<T>, b: seq<T>)
    requires multiset(a) == multiset(b)
    ensures |a| == |b|
  {
    assert |a| == |multiset(a)|;
  }

  lemma {:induction false} TimesOf(a: seq<Event>, b: seq<Event>)
    requires multiset(a) == multiset(b)
    ensures multiset(Times(a)) == multiset(Times(b))
  {
    SameSize(a, b);
    if a == [] {
      assert Times(a) == Times(b);
    } else {
      assert a[0] in multiset(b);
      var k :| 0 <= k < |b| && b[k] == a[0];
      Pull(a, 0);
      Pull(b, k);
      CancelOne(multiset(Without(a, 0)), multiset(Without(b, k)), a[0]);
      TimesOf(Without(a, 0), Without(b, k));
      TimesPull(a, 0);
      TimesPull(b, k);
    }
  }

  lemma {:induction false} SortedInts(a: seq<int>, b: seq<int>)
    requires forall i, j :: 0 <= i <= j < |a| ==> a[i] <= a[j]
    requires forall i, j :: 0 <= i <= j < |b| ==> b[i] <= b[j]
    requires multiset(a) == multiset(b)
    ensures a == b
  {
    SameSize(a, b);
    if a != [] {
      assert a[0] == b[0] by {
        assert a[0] in multiset(b) && b[0] in multiset(a);
      }
      Peel(a);
      Peel(b);
      CancelOne(multiset(a[1..]), multiset(b[1..]), a[0]);
      SortedInts(a[1..], b[1..]);
    }
  }

  // Sorted streams of the same events show the same times, position by position.
  lemma SameTimes(a: seq<Event>, b: seq<Event>)
    requires Sorted(a) && Sorted(b) && multiset(a) == multiset(b)
    ensures Times(a) == Times(b)
  {
    TimesOf(a, b);
    SortedInts(Times(a), Times(b));
  }
}
