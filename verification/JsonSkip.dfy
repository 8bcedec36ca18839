// Skipping a JSON value by counting brackets, against the grammar of RFC 8259
// (sections 3 to 7) for escape-free text without insignificant white space.
module JsonSkip {

  // ---------- The grammar ----------

  // A scalar is a number, true, false or null.
  datatype Json = Str(text: string) | Scalar(text: string) | Arr(items: Items) | Obj(members: Members)

  datatype Items = NoItems | Item(value: Json, rest: Items)

  datatype Members = NoMembers | Member(key: string, value: Json, rest: Members)

  predicate Unquoted(t: string) {
    forall i :: 0 <= i < |t| ==> t[i] != '"'
  }

  predicate IsOpen(c: char) { c == '{' || c == '[' }

  predicate IsClose(c: char) { c == '}' || c == ']' }

  predicate Plain(c: char) {
    !IsOpen(c) && !IsClose(c) && c != '"' && c != ',' && c != ' ' && c != ':'
  }

  predicate WellFormed(j: Json) {
    match j
    case Str(t) => Unquoted(t)
    case Scalar(t) => t != [] && forall i :: 0 <= i < |t| ==> Plain(t[i])
    case Arr(items) => ItemsWellFormed(items)
    case Obj(members) => MembersWellFormed(members)
  }

  predicate ItemsWellFormed(items: Items) {
    items.Item? ==> WellFormed(items.value) && ItemsWellFormed(items.rest)
  }

  predicate MembersWellFormed(members: Members) {
    members.Member? ==> Unquoted(members.key) && WellFormed(members.value) && MembersWellFormed(members.rest)
  }

  function Quoted(t: string): string {
    "\"" + (t + "\"")
  }

  function Comma(more: bool): string {
    if more then "," else ""
  }

  function Render(j: Json): string
  {
    match j
    case Str(t) => Quoted(t)
    case Scalar(t) => t
    case Arr(items) => "[" + (RenderItems(items) + "]")
    case Obj(members) => "{" + (RenderMembers(members) + "}")
  }

  function RenderItems(items: Items): string {
    match items
    case NoItems => ""
    case Item(value, rest) => Render(value) + (Comma(rest.Item?) + RenderItems(rest))
  }

  function RenderMembers(members: Members): string {
    match members
    case NoMembers => ""
    case Member(key, value, rest) =>
      Quoted(key) + (":" + (Render(value) + (Comma(rest.Member?) + RenderMembers(rest))))
  }

  // ---------- The skipper ----------

  function Spaces(s: string, p: nat): (q: nat)
    ensures p <= q && (p <= |s| ==> q <= |s|)
    decreases |s| - p
  {
    if p < |s| && s[p] == ' ' then Spaces(s, p + 1) else p
  }

  function ToQuote(s: string, p: nat): (q: nat)
    ensures p <= q && (p <= |s| ==> q <= |s|) && (q < |s| ==> s[q] == '"')
    decreases |s| - p
  {
    if p < |s| && s[p] != '"' then ToQuote(s, p + 1) else p
  }

  function PastQuote(s: string, p: nat): (q: nat)
    ensures p <= q && (p <= |s| ==> q <= |s|)
  {
    var q := ToQuote(s, p);
    if q < |s| then q + 1 else q
  }

  function ToDelimiter(s: string, p: nat): (q: nat)
    ensures p <= q && (p <= |s| ==> q <= |s|)
    decreases |s| - p
  {
    if p < |s| && s[p] != ',' && !IsClose(s[p]) then ToDelimiter(s, p + 1) else p
  }

  // Brackets are only counted, not matched, and strings are passed over.
  function Scan(s: string, p: nat, depth: int): (q: nat)
    ensures p <= q && (p <= |s| ==> q <= |s|)
    decreases |s| - p
  {
    if p >= |s| then p
    else if IsOpen(s[p]) then Scan(s, p + 1, depth + 1)
    else if IsClose(s[p]) then (if depth - 1 == 0 then p + 1 else Scan(s, p + 1, depth - 1))
    else if s[p] == '"' then Scan(s, PastQuote(s, p + 1), depth)
    else Scan(s, p + 1, depth)
  }

  function Skip(s: string, p: nat): (q: nat)
    ensures p <= q && (p <= |s| ==> q <= |s|)
  {
    var v := Spaces(s, p);
    if v >= |s| then v
    else if s[v] == '"' then PastQuote(s, v + 1)
    else if IsOpen(s[v]) then Scan(s, v, 0)
    else ToDelimiter(s, v)
  }

  method SkipVal(s: string, start: nat) returns (p: nat)
    requires start <= |s|
    ensures p == Skip(s, start)
  {
    p := start;
    while p < |s| && s[p] == ' '
      invariant p <= |s| && Spaces(s, p) == Spaces(s, start)
    {
      p := p + 1;
    }
    if p >= |s| {
      return;
    }
    var v := p;
    if s[p] == '"' {
      p := p + 1;
      while p < |s| && s[p] != '"'
        invariant v < p <= |s| && ToQuote(s, p) == ToQuote(s, v + 1)
      {
        p := p + 1;
      }
      if p < |s| {
        p := p + 1;
      }
    } else if IsOpen(s[p]) {
      p := SkipNested(s, v);
    } else {
      while p < |s| && s[p] != ',' && !IsClose(s[p])
        invariant v <= p <= |s| && ToDelimiter(s, p) == ToDelimiter(s, v)
      {
        p := p + 1;
      }
    }
  }

  method SkipNested(s: string, start: nat) returns (p: nat)
    requires start <= |s|
    ensures p == Scan(s, start, 0)
  {
    p := start;
    var depth := 0;
    while p < |s|
      invariant p <= |s| && Scan(s, p, depth) == Scan(s, start, 0)
    {
      var c := s[p];
      p := p + 1;
      if IsOpen(c) {
        depth := depth + 1;
      } else if IsClose(c) {
        depth := depth - 1;
        if depth == 0 {
          return;
        }
      } else if c == '"' {
        var text := p;
        while p < |s| && s[p] != '"'
          invariant text <= p <= |s| && ToQuote(s, p) == ToQuote(s, text)
        {
          p := p + 1;
        }
        if p < |s| {
          p := p + 1;
        }
      }
    }
  }

  // ---------- One value is skipped ----------

  // The text t stands in s at position p.
  predicate Stands(s: string, p: nat, t: string) {
    p + |t| <= |s| && s[p..p + |t|] == t
  }

  lemma StandsSplit(s: string, p: nat, t: string, u: string)
    ensures Stands(s, p, t + u) <==> Stands(s, p, t) && Stands(s, p + |t|, u)
  {
    if Stands(s, p, t + u) {
      assert s[p..p + |t|] == (t + u)[..|t|];
      assert s[p + |t|..p + |t| + |u|] == (t + u)[|t|..];
    }
  }

  lemma {:induction false} ToQuoteText(s: string, p: nat, t: string)
    requires Unquoted(t) && Stands(s, p, t + "\"")
    ensures ToQuote(s, p) == p + |t| && PastQuote(s, p) == p + |t| + 1
    decreases |t|
  {
    if t == [] {
      assert s[p..p + 1][0] == '"';
    } else {
      assert s[p..p + |t| + 1][0] == t[0];
      assert s[p + 1..p + |t| + 1] == s[p..p + |t| + 1][1..] == t[1..] + "\"";
      ToQuoteText(s, p + 1, t[1..]);
    }
  }

  // Inside at least one bracket, scanning the text leaves the depth as it was.
  ghost predicate Neutral(t: string) {
    forall s: string, p: nat, depth: int :: depth >= 1 && Stands(s, p, t) ==> Scan(s, p, depth) == Scan(s, p + |t|,
        depth)
  }

  lemma NeutralConcat(t: string, u: string)
    requires Neutral(t) && Neutral(u)
    ensures Neutral(t + u)
  {
    forall s: string, p: nat, depth: int | depth >= 1 && Stands(s, p, t + u)
      ensures Scan(s, p, depth) == Scan(s, p + |t + u|, depth)
    {
      StandsSplit(s, p, t, u);
      assert Scan(s, p, depth) == Scan(s, p + |t|, depth);
      assert Scan(s, p + |t|, depth) == Scan(s, p + |t| + |u|, depth);
    }
  }

  lemma NeutralChar(c: char)
    requires c != '"' && !IsOpen(c) && !IsClose(c)
    ensures Neutral([c])
  {
    forall s: string, p: nat, depth: int | depth >= 1 && Stands(s, p, [c])
      ensures Scan(s, p, depth) == Scan(s, p + 1, depth)
    {
      assert s[p..p + 1][0] == c;
    }
  }

  lemma {:induction false} NeutralPlain(t: string)
    requires forall i :: 0 <= i < |t| ==> Plain(t[i])
    ensures Neutral(t)
  {
    if t != [] {
      NeutralChar(t[0]);
      NeutralPlain(t[1..]);
      NeutralConcat([t[0]], t[1..]);
      assert t == [t[0]] + t[1..];
    }
  }

  lemma NeutralQuoted(t: string)
    requires Unquoted(t)
    ensures Neutral(Quoted(t))
  {
    forall s: string, p: nat, depth: int | depth >= 1 && Stands(s, p, Quoted(t))
      ensures Scan(s, p, depth) == Scan(s, p + |Quoted(t)|, depth)
    {
      StandsSplit(s, p, "\"", t + "\"");
      assert s[p..p + 1][0] == '"';
      ToQuoteText(s, p + 1, t);
    }
  }

  // From an opening bracket to the one that closes it.
  lemma ScanNested(s: string, p: nat, open: char, inside: string, close: char, depth: int)
    requires IsOpen(open) && IsClose(close) && Neutral(inside)
    requires depth >= 0 && Stands(s, p, [open] + (inside + [close]))
    ensures var q := p + |inside| + 2; Scan(s, p, depth) == if depth == 0 then q else Scan(s, q, depth)
  {
    StandsSplit(s, p, [open], inside + [close]);
    StandsSplit(s, p + 1, inside, [close]);
    assert s[p..p + 1][0] == open;
    var q := p + 1 + |inside|;
    assert s[q..q + 1] == [close];
    assert s[q] == s[q..q + 1][0] == close;
    assert Scan(s, p, depth) == Scan(s, p + 1, depth + 1) == Scan(s, q, depth + 1);
  }

  lemma NeutralNested(open: char, inside: string, close: char)
    requires IsOpen(open) && IsClose(close) && Neutral(inside)
    ensures Neutral([open] + (inside + [close]))
  {
    forall s: string, p: nat, depth: int | depth >= 1 && Stands(s, p, [open] + (inside + [close]))
      ensures Scan(s, p, depth) == Scan(s, p + |[open] + (inside + [close])|, depth)
    {
      ScanNested(s, p, open, inside, close, depth);
    }
  }

  // A whole value, of any nesting, is neutral.
  lemma {:induction false} ValueNeutral(j: Json)
    requires WellFormed(j)
    ensures Neutral(Render(j))
  {
    hide Neutral;
    match j
    case Str(t) => NeutralQuoted(t);
    case Scalar(t) => NeutralPlain(t);
    case Arr(items) =>
      ItemsNeutral(items);
      NeutralNested('[', RenderItems(items), ']');
    case Obj(members) =>
      MembersNeutral(members);
      NeutralNested('{', RenderMembers(members), '}');
  }

  lemma {:induction false} ItemsNeutral(items: Items)
    requires ItemsWellFormed(items)
    ensures Neutral(RenderItems(items))
  {
    match items
    case NoItems =>
    case Item(value, rest) =>
      ValueNeutral(value);
      ItemsNeutral(rest);
      CommaNeutral(rest.Item?);
      NeutralConcat(Comma(rest.Item?), RenderItems(rest));
      NeutralConcat(Render(value), Comma(rest.Item?) + RenderItems(rest));
  }

  lemma CommaNeutral(more: bool)
    ensures Neutral(Comma(more)) && Neutral(":")
  {
    NeutralChar(',');
    NeutralChar(':');
  }

  lemma {:induction false} MembersNeutral(members: Members)
    requires MembersWellFormed(members)
    ensures Neutral(RenderMembers(members))
  {
    match members
    case NoMembers =>
    case Member(key, value, rest) =>
      var tail := Comma(rest.Member?) + RenderMembers(rest);
      NeutralQuoted(key);
      ValueNeutral(value);
      MembersNeutral(rest);
      CommaNeutral(rest.Member?);
      NeutralConcat(Comma(rest.Member?), RenderMembers(rest));
      NeutralConcat(Render(value), tail);
      NeutralConcat(":", Render(value) + tail);
      NeutralConcat(Quoted(key), ":" + (Render(value) + tail));
  }

  lemma {:induction false} ToDelimiterScalar(s: string, p: nat, t: string)
    requires Stands(s, p, t) && forall i :: 0 <= i < |t| ==> Plain(t[i])
    ensures ToDelimiter(s, p) == ToDelimiter(s, p + |t|)
    decreases |t|
  {
    if t != [] {
      assert s[p..p + |t|][0] == t[0];
      assert s[p + 1..p + |t|] == t[1..];
      ToDelimiterScalar(s, p + 1, t[1..]);
    }
  }

  // What may follow a value: a scalar only ends where the text does or a delimiter stands.
  predicate Ends(s: string, q: nat, j: Json) {
    j.Scalar? && q < |s| ==> s[q] == ',' || IsClose(s[q])
  }

  // The skipper passes over exactly one value, whatever its kind and nesting.
  lemma SkipsOneValue(s: string, p: nat, j: Json)
    requires WellFormed(j) && Stands(s, p, Render(j)) && Ends(s, p + |Render(j)|, j)
    ensures Skip(s, p) == p + |Render(j)|
  {
    assert Render(j) != [];
    assert s[p..p + |Render(j)|][0] == Render(j)[0];
    match j
    case Str(t) =>
      StandsSplit(s, p, "\"", t + "\"");
      ToQuoteText(s, p + 1, t);
    case Scalar(t) => ToDelimiterScalar(s, p, t);
    case Arr(items) =>
      ItemsNeutral(items);
      ScanNested(s, p, '[', RenderItems(items), ']', 0);
    case Obj(members) =>
      MembersNeutral(members);
      ScanNested(s, p, '{', RenderMembers(members), '}', 0);
  }
}
