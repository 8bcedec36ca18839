// Members written in another order, with members that are passed over among them, mean the same.
module LineOrder {
  import opened JsonSkip
  import opened LineParser

  // The members of an object, in no order.
  function Pairs(members: Members): multiset<(string, Json)> {
    if members.NoMembers? then multiset{} else multiset{(members.key, members.value)} + Pairs(members.rest)
  }

  function KindBag(members: Members, inner: bool): multiset<Kind> {
    if members.NoMembers? then multiset{} else multiset{KindOf(members.key, inner)} + KindBag(members.rest, inner)
  }

  // The members without the first one that is this pair.
  function Minus(members: Members, pair: (string, Json)): Members {
    if members.NoMembers? then NoMembers
    else if (members.key, members.value) == pair then members.rest
    else Member(members.key, members.value, Minus(members.rest, pair))
  }

  function Appended(a: Members, b: Members): Members {
    if a.NoMembers? then b else Member(a.key, a.value, Appended(a.rest, b))
  }

  // ---------- Properties that do not depend on the order ----------

  lemma {:induction false} MinusPairs(members: Members, pair: (string, Json), inner: bool)
    requires pair in Pairs(members)
    ensures Pairs(members) == multiset{pair} + Pairs(Minus(members, pair))
    ensures KindBag(members, inner) == multiset{KindOf(pair.0, inner)} + KindBag(Minus(members, pair), inner)
  {
    hide KindOf;
    if (members.key, members.value) != pair {
      MinusPairs(members.rest, pair, inner);
    }
  }

  lemma {:induction false} SameKinds(a: Members, b: Members, inner: bool)
    requires Pairs(a) == Pairs(b)
    ensures KindBag(a, inner) == KindBag(b, inner)
  {
    hide KindOf, Minus;
    if a.Member? {
      var pair, rest := (a.key, a.value), a.rest;
      assert Pairs(a) == multiset{pair} + Pairs(rest);
      assert KindBag(a, inner) == multiset{KindOf(pair.0, inner)} + KindBag(rest, inner);
      hide Pairs, KindBag;
      MinusPairs(b, pair, inner);
      Cancel(pair, Pairs(rest), Pairs(Minus(b, pair)));
      SameKinds(rest, Minus(b, pair), inner);
    }
  }

  lemma Cancel<T>(x: T, p: multiset<T>, q: multiset<T>)
    requires multiset{x} + p == multiset{x} + q
    ensures p == q
  {
    assert p == multiset{x} + p - multiset{x} && q == multiset{x} + q - multiset{x};
  }

  lemma {:induction false} KindsAreKeys(members: Members, inner: bool)
    ensures forall k :: k in KindBag(members, inner) <==> k in Kinds(members, inner)
  {
    hide KindOf;
    if members.Member? {
      KindsAreKeys(members.rest, inner);
    }
  }

  // No kind that is read comes twice.
  ghost predicate OnceEach(bag: multiset<Kind>) {
    forall k :: k in bag && k != Ignored ==> bag[k] == 1
  }

  lemma {:induction false} DistinctIsOnce(members: Members, inner: bool)
    ensures Distinct(members, inner) <==> OnceEach(KindBag(members, inner))
  {
    if members.Member? {
      DistinctIsOnce(members.rest, inner);
      KindsAreKeys(members.rest, inner);
      OnceMore(KindBag(members.rest, inner), KindOf(members.key, inner));
      hide KindOf, OnceEach;
    }
  }

  lemma OnceMore(bag: multiset<Kind>, k: Kind)
    ensures OnceEach(multiset{k} + bag) <==> OnceEach(bag) && (k == Ignored || k !in bag)
  {
    var more := multiset{k} + bag;
    if OnceEach(more) {
      forall j | j in bag && j != Ignored
        ensures bag[j] == 1
      {
        assert j in more;
      }
      assert k in more;
    }
  }

  ghost predicate Sound(pair: (string, Json), inner: bool) {
    Unquoted(pair.0) && WellFormed(pair.1) && Conforms(KindOf(pair.0, inner), pair.1)
  }

  lemma {:induction false} SoundMembers(members: Members, inner: bool)
    ensures MembersWellFormed(members) && MembersConform(members, inner) <==>
      forall pair :: pair in Pairs(members) ==> Sound(pair, inner)
  {
    if members.Member? {
      SoundMembers(members.rest, inner);
      assert (members.key, members.value) in Pairs(members);
      hide KindOf, Unquoted, WellFormed, Conforms;
    }
  }

  ghost predicate Gives(pair: (string, Json), inner: bool, d: (Kind, Fields)) {
    d.0 != Ignored && d == (KindOf(pair.0, inner), Meaning(d.0, pair.1))
  }

  lemma {:induction false} AssignmentsAreGiven(members: Members, inner: bool, d: (Kind, Fields))
    ensures d in Assignments(members, inner) <==> exists pair :: pair in Pairs(members) && Gives(pair, inner, d)
  {
    hide KindOf, Meaning;
    if members.Member? {
      var here := (members.key, members.value);
      assert here in Pairs(members);
      AssignmentsAreGiven(members.rest, inner, d);
      if d in Assignments(members.rest, inner) {
        var pair :| pair in Pairs(members.rest) && Gives(pair, inner, d);
        assert pair in Pairs(members);
      }
    }
  }

  // Of members that are read into the same field, the last one counts.
  lemma {:induction false} LaterWins(a: Members, b: Members, inner: bool)
    ensures MembersMeaning(Appended(a, b), inner) == MembersMeaning(a, inner) + MembersMeaning(b, inner)
  {
    hide KindOf, Meaning;
    if a.Member? {
      LaterWins(a.rest, b, inner);
    }
  }

  // ---------- Rearranging ----------

  // Members that nothing reads.
  ghost predicate PassedOver(extra: Members, inner: bool) {
    extra.Member? ==>
      && Unquoted(extra.key) && WellFormed(extra.value) && KindOf(extra.key, inner) == Ignored
      && PassedOver(extra.rest, inner)
  }

  // b has the members of a in some order, and perhaps others that are passed over.
  ghost predicate Rearranged(a: Members, b: Members, extra: Members, inner: bool) {
    PassedOver(extra, inner) && Pairs(b) == Pairs(a) + Pairs(extra)
  }

  lemma {:induction false} AppendedBags(a: Members, b: Members, inner: bool)
    ensures Pairs(Appended(a, b)) == Pairs(a) + Pairs(b)
    ensures KindBag(Appended(a, b), inner) == KindBag(a, inner) + KindBag(b, inner)
  {
    hide KindOf;
    if a.Member? {
      AppendedBags(a.rest, b, inner);
    }
  }

  lemma {:induction false} PassedOverKinds(extra: Members, inner: bool)
    requires PassedOver(extra, inner)
    ensures forall k :: k in KindBag(extra, inner) ==> k == Ignored
    ensures forall pair :: pair in Pairs(extra) ==> Sound(pair, inner) && KindOf(pair.0, inner) == Ignored
  {
    hide KindOf, Unquoted, WellFormed;
    if extra.Member? {
      PassedOverKinds(extra.rest, inner);
    }
  }

  lemma MoreIgnored(bag: multiset<Kind>, more: multiset<Kind>)
    requires forall k :: k in more ==> k == Ignored
    ensures OnceEach(bag + more) <==> OnceEach(bag)
  {
    forall k | k != Ignored
      ensures (bag + more)[k] == bag[k]
    {
      assert k !in more;
    }
  }

  lemma RearrangedDistinct(a: Members, b: Members, extra: Members, inner: bool)
    requires Rearranged(a, b, extra, inner) && Distinct(a, inner)
    ensures Distinct(b, inner)
  {
    DistinctIsOnce(a, inner);
    DistinctIsOnce(b, inner);
    AppendedBags(a, extra, inner);
    SameKinds(b, Appended(a, extra), inner);
    PassedOverKinds(extra, inner);
    MoreIgnored(KindBag(a, inner), KindBag(extra, inner));
    hide Distinct, OnceEach;
  }

  lemma RearrangedAssigns(a: Members, b: Members, extra: Members, inner: bool)
    requires Rearranged(a, b, extra, inner)
    ensures Assignments(a, inner) == Assignments(b, inner)
  {
    hide Pairs, Assignments, KindOf, Meaning;
    PassedOverKinds(extra, inner);
    forall d: (Kind, Fields)
      ensures d in Assignments(a, inner) <==> d in Assignments(b, inner)
    {
      AssignmentsAreGiven(a, inner, d);
      AssignmentsAreGiven(b, inner, d);
      if d in Assignments(a, inner) {
        var pair :| pair in Pairs(a) && Gives(pair, inner, d);
        assert pair in Pairs(b);
      }
    }
  }

  // Rearranged members are still well formed, still distinct, and mean the same.
  lemma OrderIsFree(a: Members, b: Members, extra: Members, inner: bool)
    requires MembersWellFormed(a) && MembersConform(a, inner) && Distinct(a, inner)
    requires Rearranged(a, b, extra, inner)
    ensures MembersWellFormed(b) && MembersConform(b, inner) && Distinct(b, inner)
    ensures MembersMeaning(b, inner) == MembersMeaning(a, inner)
  {
    hide MembersWellFormed, MembersConform, MembersMeaning, Distinct, Assignments, Pairs, Sound;
    SoundMembers(a, inner);
    SoundMembers(b, inner);
    PassedOverKinds(extra, inner);
    RearrangedDistinct(a, b, extra, inner);
    RearrangedAssigns(a, b, extra, inner);
    OrderDoesNotMatter(a, b, inner);
  }

  // A line whose members are rearranged gives the same event, or the same error.
  lemma RearrangedLine(s: string, p: nat, a: Members, s': string, p': nat, b: Members, extra: Members)
    requires MembersWellFormed(a) && MembersConform(a, false) && Distinct(a, false)
    requires Rearranged(a, b, extra, false) && Stands(s, p, LineText(a)) && Stands(s', p', LineText(b))
    ensures ParseLine(s, p).Line? <==> ParseLine(s', p').Line?
    ensures ParseLine(s, p).Line? ==> ParseLine(s, p).fields == ParseLine(s', p').fields
    ensures !ParseLine(s, p).Line? ==> ParseLine(s, p) == ParseLine(s', p')
  {
    hide ParseLine, MembersWellFormed, MembersConform, MembersMeaning, Distinct, Assignments, Rearranged, Stands;
    hide LineText;
    OrderIsFree(a, b, extra, false);
    RearrangedAssigns(a, b, extra, false);
    LinesAgree(s, p, a, s', p', b);
  }
}
