// Spaces, and more commas and colons than needed, between the members of a line.
module LineSpaces {
  import opened JsonSkip
  import opened LineParser

  // What stands before a key, and between a key and its value.
  datatype Gap = Gap(lead: string, colon: string)

  predicate GapOk(g: Gap, first: bool) {
    && (forall c :: c in g.lead ==> c == ' ' || c == ',')
    && (first || (g.lead != [] && g.lead[0] == ','))
    && g.colon != [] && forall c :: c in g.colon ==> c == ' ' || c == ':'
  }

  function Count(members: Members): nat {
    if members.NoMembers? then 0 else 1 + Count(members.rest)
  }

  predicate GapsOk(gaps: seq<Gap>, first: bool) {
    gaps == [] || (GapOk(gaps[0], first) && GapsOk(gaps[1..], false))
  }

  // The members with the gaps, and the closing brace.
  function Spaced(members: Members, gaps: seq<Gap>): string
    requires |gaps| == Count(members)
  {
    if members.NoMembers? then "}"
    else
      gaps[0].lead + (Quoted(members.key) + (gaps[0].colon + (Render(members.value) + Spaced(members.rest, gaps[1..]))))
  }

  lemma {:induction false} SeparatorsPast(s: string, p: nat, q: nat)
    requires p <= q < |s| && s[q] == '"' && forall j :: p <= j < q ==> s[j] == ' ' || s[j] == ','
    ensures Separators(s, p) == q && Separators(s, q) == q
    decreases q - p
  {
    if p < q {
      SeparatorsPast(s, p + 1, q);
    }
  }

  lemma {:induction false} ColonsPast(s: string, p: nat, q: nat)
    requires p <= q < |s| && s[q] != ' ' && s[q] != ':' && forall j :: p <= j < q ==> s[j] == ' ' || s[j] == ':'
    ensures Colons(s, p) == q
    decreases q - p
  {
    if p < q {
      ColonsPast(s, p + 1, q);
    }
  }

  lemma Inside(s: string, p: nat, t: string)
    requires Stands(s, p, t)
    ensures forall j :: p <= j < p + |t| ==> s[j] in t
  {
    forall j | p <= j < p + |t|
      ensures s[j] in t
    {
      assert s[p..p + |t|][j - p] == s[j];
    }
  }

  // Where the parts of a member stand.
  ghost predicate PartsStand(s: string, p: nat, g: Gap, key: string, value: Json, tail: string) {
    var q := p + |g.lead|;
    var c := q + |key| + 2;
    var v := c + |g.colon|;
    && Stands(s, p, g.lead) && Stands(s, q, Quoted(key)) && Stands(s, c, g.colon) && Stands(s, v, Render(value))
    && Stands(s, v + |Render(value)|, tail)
  }

  lemma Parts(s: string, p: nat, g: Gap, key: string, value: Json, tail: string)
    requires Stands(s, p, g.lead + (Quoted(key) + (g.colon + (Render(value) + tail))))
    ensures PartsStand(s, p, g, key, value, tail)
  {
    var q, quoted := p + |g.lead|, Quoted(key);
    assert |quoted| == |key| + 2;
    hide Stands, Quoted, Render;
    StandsSplit(s, p, g.lead, quoted + (g.colon + (Render(value) + tail)));
    StandsSplit(s, q, quoted, g.colon + (Render(value) + tail));
    StandsSplit(s, q + |quoted|, g.colon, Render(value) + tail);
    StandsSplit(s, q + |quoted| + |g.colon|, Render(value), tail);
  }

  lemma Placed(s: string, p: nat, g: Gap, key: string, value: Json, tail: string)
    requires PartsStand(s, p, g, key, value, tail)
    ensures var q := p + |g.lead|;
      var v := q + |key| + 2 + |g.colon|;
      && Stands(s, p, g.lead) && Stands(s, q, Quoted(key)) && Stands(s, q + |key| + 2, g.colon)
      && Stands(s, v, Render(value)) && Stands(s, v + |Render(value)|, tail)
    ensures |Quoted(key)| == |key| + 2
  {
    hide Stands;
  }

  lemma LeadPassed(s: string, p: nat, g: Gap, first: bool)
    requires GapOk(g, first) && Stands(s, p, g.lead) && Starts(s, p + |g.lead|, '"')
    ensures Separators(s, p) == p + |g.lead| && Separators(s, p + |g.lead|) == p + |g.lead|
  {
    Inside(s, p, g.lead);
    hide Stands;
    SeparatorsPast(s, p, p + |g.lead|);
  }

  lemma ColonPassed(s: string, c: nat, g: Gap, first: bool, value: Json)
    requires GapOk(g, first) && Stands(s, c, g.colon) && WellFormed(value) && Stands(s, c + |g.colon|, Render(value))
    ensures Colons(s, c) == c + |g.colon| <= |s|
  {
    Inside(s, c, g.colon);
    hide Stands, WellFormed, Render;
    FirstChar(s, c + |g.colon|, value);
    ColonsPast(s, c, c + |g.colon|);
  }

  // The gaps are passed over.
  lemma GapsPassed(s: string, p: nat, g: Gap, first: bool, key: string, value: Json, tail: string)
    requires GapOk(g, first) && Unquoted(key) && WellFormed(value) && PartsStand(s, p, g, key, value, tail)
    ensures var q := p + |g.lead|;
      && Starts(s, q, '"') && Separators(s, p) == q && Separators(s, q) == q && TextAt(s, q + 1) == key
      && Colons(s, PastQuote(s, q + 1)) == q + |key| + 2 + |g.colon| <= |s|
  {
    hide *;
    var q := p + |g.lead|;
    Placed(s, p, g, key, value, tail);
    StringValue(s, q, key);
    LeadPassed(s, p, g, first);
    ColonPassed(s, q + |key| + 2, g, first, value);
  }

  lemma TailDelimits(s: string, p: nat, members: Members, gaps: seq<Gap>)
    requires |gaps| == Count(members) && GapsOk(gaps, false) && Stands(s, p, Spaced(members, gaps))
    ensures Delimited(s, p)
  {
    var t := Spaced(members, gaps);
    assert t != [] && (t[0] == ',' || t[0] == '}') by {
      hide Quoted, Render;
    }
    assert s[p..p + |t|][0] == s[p];
  }

  // Everything about the first member.
  lemma FirstMember(members: Members, gaps: seq<Gap>, first: bool, inner: bool)
    requires members.Member? && MembersWellFormed(members) && MembersConform(members, inner)
    requires |gaps| == Count(members) && GapsOk(gaps, first)
    ensures |gaps| > 0 && |gaps[1..]| == Count(members.rest) && GapOk(gaps[0], first) && GapsOk(gaps[1..], false)
    ensures Unquoted(members.key) && WellFormed(members.value) && MembersWellFormed(members.rest)
    ensures Conforms(KindOf(members.key, inner), members.value) && MembersConform(members.rest, inner)
    ensures Spaced(members, gaps) ==
      gaps[0].lead + (Quoted(members.key) + (gaps[0].colon + (Render(members.value) + Spaced(members.rest, gaps[1..]))))
    ensures |Quoted(members.key)| == |members.key| + 2
  {
    hide Render, KindOf, Unquoted, WellFormed, Conforms, GapOk;
  }

  function PastMember(p: nat, members: Members, g: Gap): nat
    requires members.Member?
  {
    p + |g.lead| + |members.key| + 2 + |g.colon| + |Render(members.value)|
  }

  lemma SpacedStep(s: string, p: nat, members: Members, gaps: seq<Gap>, first: bool, e: Fields, inner: bool)
    requires members.Member? && MembersWellFormed(members) && MembersConform(members, inner)
    requires |gaps| == Count(members) && GapsOk(gaps, first) && Stands(s, p, Spaced(members, gaps))
    ensures |gaps| > 0 && |gaps[1..]| == Count(members.rest)
    ensures var next := PastMember(p, members, gaps[0]);
      && Stands(s, next, Spaced(members.rest, gaps[1..]))
      && p + |Spaced(members, gaps)| == next + |Spaced(members.rest, gaps[1..])|
      && ReadMembers(s, p, e, inner) ==
         ReadMembers(s, next, e + Meaning(KindOf(members.key, inner), members.value), inner)
  {
    hide *;
    FirstMember(members, gaps, first, inner);
    var Member(key, value, rest) := members;
    var g, tail, kind := gaps[0], Spaced(members.rest, gaps[1..]), KindOf(members.key, inner);
    var q := p + |g.lead|;
    var v := q + |key| + 2 + |g.colon|;
    Parts(s, p, g, key, value, tail);
    Placed(s, p, g, key, value, tail);
    GapsPassed(s, p, g, first, key, value, tail);
    Past(p, members, g);
    TailDelimits(s, v + |Render(value)|, rest, gaps[1..]);
    ReadsValue(s, v, kind, value);
    SameFromKey(s, p, q, e, inner);
    Quote(s, q);
    ReadStep(s, q, e, inner, key, v, Meaning(kind, value), v + |Render(value)|);
  }

  lemma Past(p: nat, members: Members, g: Gap)
    requires members.Member?
    ensures PastMember(p, members, g) == p + |g.lead| + |members.key| + 2 + |g.colon| + |Render(members.value)|
  {
    hide Render;
  }

  lemma Quote(s: string, q: nat)
    requires Starts(s, q, '"')
    ensures q < |s| && s[q] == '"'
  {
  }

  lemma SameFromKey(s: string, p: nat, q: nat, e: Fields, inner: bool)
    requires Separators(s, p) == q && Separators(s, q) == q
    ensures ReadMembers(s, p, e, inner) == ReadMembers(s, q, e, inner)
  {
    MembersAt(s, p, e, inner);
    MembersAt(s, q, e, inner);
    hide ReadMembers, Separators;
  }

  lemma {:induction false} ReadsSpaced(s: string, p: nat, members: Members, gaps: seq<Gap>, first: bool, e: Fields,
      inner: bool)
    requires MembersWellFormed(members) && MembersConform(members, inner)
    requires |gaps| == Count(members) && GapsOk(gaps, first) && Stands(s, p, Spaced(members, gaps))
    ensures ReadMembers(s, p, e, inner) == (e + MembersMeaning(members, inner), p + |Spaced(members, gaps)|)
    decreases members
  {
    hide *;
    if members.NoMembers? {
      EmptyText(members, gaps, inner);
      ReadsEnd(s, p, e, inner);
    } else {
      FirstMember(members, gaps, first, inner);
      SpacedStep(s, p, members, gaps, first, e, inner);
      var delta := Meaning(KindOf(members.key, inner), members.value);
      ReadsSpaced(s, PastMember(p, members, gaps[0]), members.rest, gaps[1..], false, e + delta, inner);
      MeaningOfFirst(members, inner);
      assert e + delta + MembersMeaning(members.rest, inner) == e + (delta + MembersMeaning(members.rest, inner));
    }
  }

  lemma MeaningOfFirst(members: Members, inner: bool)
    requires members.Member?
    ensures MembersMeaning(members, inner) ==
      Meaning(KindOf(members.key, inner), members.value) + MembersMeaning(members.rest, inner)
  {
    hide Meaning, KindOf;
  }

  lemma EmptyText(members: Members, gaps: seq<Gap>, inner: bool)
    requires members.NoMembers? && |gaps| == Count(members)
    ensures Spaced(members, gaps) == RenderMembers(NoMembers) + "}" && |Spaced(members, gaps)| == 1
    ensures MembersMeaning(members, inner) == map[]
  {
  }

  // A line with gaps between its members gives what the line without them gives, and is left
  // right behind its closing brace.
  lemma SpacesDoNotMatter(members: Members, gaps: seq<Gap>)
    requires MembersWellFormed(members) && MembersConform(members, false)
    requires |gaps| == Count(members) && GapsOk(gaps, true)
    ensures var s := "{" + Spaced(members, gaps);
      ParseLine(s, 0) == Finished(MembersMeaning(members, false), |s|)
  {
    var s := "{" + Spaced(members, gaps);
    assert s[1..1 + |Spaced(members, gaps)|] == Spaced(members, gaps);
    ReadsSpaced(s, 1, members, gaps, true, map[], false);
    assert map[] + MembersMeaning(members, false) == MembersMeaning(members, false);
    hide Spaced, MembersMeaning, ReadMembers, MembersWellFormed, MembersConform;
  }
}
