// Streams woven together from several files, whatever their times.
module Interleaving {
  import opened MarketData
  import opened StableMerge

  // The events of s that come from file i, where src names each event's file.
  function Project(s: seq<Event>, src: seq<nat>, i: nat): seq<Event>
    requires |s| == |src|
  {
    if s == [] then []
    else if src[0] == i then [s[0]] + Project(s[1..], src[1..], i)
    else Project(s[1..], src[1..], i)
  }

  // Every file comes through whole and in its own order, and nothing else does.
  predicate IsInterleaving(s: seq<Event>, src: seq<nat>, files: seq<seq<Event>>) {
    && |s| == |src|
    && (forall k :: 0 <= k < |src| ==> src[k] < |files|)
    && forall i :: 0 <= i < |files| ==> Project(s, src, i) == files[i]
  }

  lemma {:induction false} ProjectSnoc(s: seq<Event>, src: seq<nat>, e: Event, k: nat, i: nat)
    requires |s| == |src|
    ensures Project(s + [e], src + [k], i) == Project(s, src, i) + (if k == i then [e] else [])
  {
    if s == [] {
      assert Project(s + [e], src + [k], i) == (if k == i then [e] + Project([], [], i) else []);
    } else {
      assert (s + [e])[1..] == s[1..] + [e] && (src + [k])[1..] == src[1..] + [k];
      ProjectSnoc(s[1..], src[1..], e, k, i);
    }
  }

  lemma {:induction false} ProjectNone(s: seq<Event>, src: seq<nat>, i: nat)
    requires |s| == |src| && forall k :: 0 <= k < |src| ==> src[k] != i
    ensures Project(s, src, i) == []
  {
    if s != [] {
      ProjectNone(s[1..], src[1..], i);
    }
  }

  function Shifted(src: seq<nat>, m: nat): seq<nat> {
    seq(|src|, k requires 0 <= k < |src| => src[k] + m)
  }

  lemma {:induction false} ProjectShifted(s: seq<Event>, src: seq<nat>, m: nat, i: nat)
    requires |s| == |src|
    ensures Project(s, Shifted(src, m), i + m) == Project(s, src, i)
  {
    if s != [] {
      assert Shifted(src, m)[1..] == Shifted(src[1..], m);
      ProjectShifted(s[1..], src[1..], m, i);
    }
  }

  // Where each event of a merge comes from.
  function MergeOrigins(a: seq<Event>, b: seq<Event>, sa: seq<nat>, sb: seq<nat>): (src: seq<nat>)
    requires |a| == |sa| && |b| == |sb|
    ensures |src| == |Merge(a, b)|
    decreases |a| + |b|
  {
    if a == [] then sb
    else if b == [] then sa
    else if a[0].tsRecv > b[0].tsRecv then [sb[0]] + MergeOrigins(a, b[1..], sa, sb[1..])
    else [sa[0]] + MergeOrigins(a[1..], b, sa[1..], sb)
  }

  lemma {:induction false} MergeOriginsIn(a: seq<Event>, b: seq<Event>, sa: seq<nat>, sb: seq<nat>, n: nat)
    requires |a| == |sa| && |b| == |sb|
    requires (forall k :: 0 <= k < |sa| ==> sa[k] < n) && (forall k :: 0 <= k < |sb| ==> sb[k] < n)
    ensures forall k :: 0 <= k < |MergeOrigins(a, b, sa, sb)| ==> MergeOrigins(a, b, sa, sb)[k] < n
    decreases |a| + |b|
  {
    if a == [] || b == [] {
    } else if a[0].tsRecv > b[0].tsRecv {
      MergeOriginsIn(a, b[1..], sa, sb[1..], n);
    } else {
      MergeOriginsIn(a[1..], b, sa[1..], sb, n);
    }
  }

  // A merge keeps, for each file, what its own side kept.
  lemma {:induction false} MergeProject(a: seq<Event>, b: seq<Event>, sa: seq<nat>, sb: seq<nat>, i: nat)
    requires |a| == |sa| && |b| == |sb|
    requires Project(a, sa, i) == [] || Project(b, sb, i) == []
    ensures Project(Merge(a, b), MergeOrigins(a, b, sa, sb), i) == Project(a, sa, i) + Project(b, sb, i)
    decreases |a| + |b|
  {
    var pa, pb := Project(a, sa, i), Project(b, sb, i);
    if a == [] {
      assert pa + pb == pb;
    } else if b == [] {
      assert pa + pb == pa;
    } else if a[0].tsRecv > b[0].tsRecv {
      MergeProject(a, b[1..], sa, sb[1..], i);
      ProjectCons(b[0], Merge(a, b[1..]), sb[0], MergeOrigins(a, b[1..], sa, sb[1..]), i);
      assert sb[0] == i ==> pa == [] && pa + pb == [b[0]] + (pa + Project(b[1..], sb[1..], i));
    } else {
      MergeProject(a[1..], b, sa[1..], sb, i);
      ProjectCons(a[0], Merge(a[1..], b), sa[0], MergeOrigins(a[1..], b, sa[1..], sb), i);
      assert sa[0] == i ==> pa + pb == [a[0]] + (Project(a[1..], sa[1..], i) + pb);
    }
  }

  lemma ProjectCons(e: Event, s: seq<Event>, k: nat, src: seq<nat>, i: nat)
    requires |s| == |src|
    ensures Project([e] + s, [k] + src, i) == (if k == i then [e] + Project(s, src, i) else Project(s, src, i))
  {
    assert ([e] + s)[1..] == s && ([k] + src)[1..] == src;
  }

  // Merging two interleavings interleaves all their files.
  lemma MergeInterleaves(a: seq<Event>, sa: seq<nat>, fa: seq<seq<Event>>, b: seq<Event>, sb: seq<nat>,
      fb: seq<seq<Event>>)
    requires IsInterleaving(a, sa, fa) && IsInterleaving(b, sb, fb)
    ensures IsInterleaving(Merge(a, b), MergeOrigins(a, b, sa, Shifted(sb, |fa|)), fa + fb)
  {
    var sc, files := Shifted(sb, |fa|), fa + fb;
    hide Merge, MergeOrigins, Project;
    MergeOriginsIn(a, b, sa, sc, |files|);
    forall i | 0 <= i < |files|
      ensures Project(Merge(a, b), MergeOrigins(a, b, sa, sc), i) == files[i]
    {
      MergeOf(a, sa, fa, b, sb, fb, i);
    }
  }

  // File i of the merge comes through from the side that has it.
  lemma MergeOf(a: seq<Event>, sa: seq<nat>, fa: seq<seq<Event>>, b: seq<Event>, sb: seq<nat>, fb: seq<seq<Event>>,
      i: nat)
    requires IsInterleaving(a, sa, fa) && IsInterleaving(b, sb, fb) && i < |fa| + |fb|
    ensures Project(Merge(a, b), MergeOrigins(a, b, sa, Shifted(sb, |fa|)), i) == (fa + fb)[i]
  {
    hide Merge, MergeOrigins, Project;
    var sc := Shifted(sb, |fa|);
    if i < |fa| {
      ProjectNone(b, sc, i);
    } else {
      ProjectNone(a, sa, i);
      ProjectShifted(b, sb, |fa|, i - |fa|);
    }
    MergeProject(a, b, sa, sc, i);
  }

  // ---------- Contents ----------

  lemma ConcatTake(files: seq<seq<Event>>, i: nat)
    requires i < |files| && files[i] != []
    ensures multiset(Concat(files)) == multiset(Concat(files[i := files[i][1..]])) + multiset{files[i][0]}
  {
    var rest := files[i][1..];
    assert files == files[..i] + ([files[i]] + files[i + 1..]);
    assert files[i := rest] == files[..i] + ([rest] + files[i + 1..]);
    ConcatAppend(files[..i], [files[i]] + files[i + 1..]);
    ConcatAppend(files[..i], [rest] + files[i + 1..]);
    assert ([files[i]] + files[i + 1..])[1..] == files[i + 1..] == ([rest] + files[i + 1..])[1..];
    Peel(files[i]);
  }

  lemma {:induction false} EmptyFiles(files: seq<seq<Event>>)
    requires forall i :: 0 <= i < |files| ==> files[i] == []
    ensures Concat(files) == []
  {
    if files != [] {
      EmptyFiles(files[1..]);
    }
  }

  // An interleaving holds exactly the events of its files.
  lemma {:induction false} InterleavingContents(s: seq<Event>, src: seq<nat>, files: seq<seq<Event>>)
    requires IsInterleaving(s, src, files)
    ensures multiset(s) == multiset(Concat(files))
  {
    if s == [] {
      EmptyFiles(files);
    } else {
      var i := src[0];
      assert files[i] == Project(s, src, i) == [s[0]] + Project(s[1..], src[1..], i);
      var rest := files[i := files[i][1..]];
      assert IsInterleaving(s[1..], src[1..], rest) by {
        forall j | 0 <= j < |rest|
          ensures Project(s[1..], src[1..], j) == rest[j]
        {
          assert files[j] == Project(s, src, j);
        }
      }
      InterleavingContents(s[1..], src[1..], rest);
      ConcatTake(files, i);
      Peel(s);
    }
  }
}
