// A file of lines: each line is parsed in turn, and a line that throws is left at its end.
module LineFile {
  import opened JsonSkip
  import opened LineParser

  function Gaps(s: string, p: nat): (q: nat)
    ensures p <= q && (p <= |s| ==> q <= |s|)
    decreases |s| - p
  {
    if p < |s| && (s[p] == '\n' || s[p] == '\r' || s[p] == ' ') then Gaps(s, p + 1) else p
  }

  // Just behind the next line end, or the end of the file.
  function Recover(s: string, p: nat): (q: nat)
    requires p <= |s|
    ensures p <= q <= |s| && (p < |s| ==> p < q)
    decreases |s| - p
  {
    if p >= |s| then |s| else if s[p] == '\n' then p + 1 else Recover(s, p + 1)
  }

  // Where the line parser would stop if nothing threw.
  function LineEnd(s: string, p: nat): (q: nat)
    ensures p <= q
  {
    if Starts(s, p, '{') then ReadMembers(s, p + 1, map[], false).1 else p
  }

  // Where an exception leaves the position: anywhere in the line.
  function Thrown(s: string, p: nat, stuck: seq<nat>): (q: nat)
    requires p <= |s|
    ensures p <= q <= |s|
  {
    if p < |stuck| && p <= stuck[p] <= LineEnd(s, p) && stuck[p] <= |s| then stuck[p] else p
  }

  // The events of a file from a position on.
  function Events(s: string, p: nat, stuck: seq<nat>): seq<Fields>
    requires p <= |s|
    decreases |s| - p
  {
    var q := Gaps(s, p);
    if q >= |s| then []
    else
      match ParseLine(s, q)
      case Line(e, next) => [e] + (if next <= |s| then Events(s, next, stuck) else [])
      case _ => Events(s, Recover(s, Thrown(s, q, stuck)), stuck)
  }

  // The loop over a file; stuck says where the exceptions leave the position.
  method ParseFile(s: string, stuck: seq<nat>) returns (events: seq<Fields>)
    ensures events == Events(s, 0, stuck)
  {
    hide ParseLine, LineEnd;
    events := [];
    var p := 0;
    while p < |s|
      invariant p <= |s| ==> events + Events(s, p, stuck) == Events(s, 0, stuck)
      invariant p > |s| ==> events == Events(s, 0, stuck)
      decreases |s| - p
    {
      var from := p;
      while p < |s| && (s[p] == '\n' || s[p] == '\r' || s[p] == ' ')
        invariant from <= p <= |s| && Gaps(s, p) == Gaps(s, from)
      {
        p := p + 1;
      }
      if p >= |s| {
        break;
      }
      var line := ParseOneLine(s, p);
      match line
      case Line(e, next) =>
        NextLies(s, p);
        assert events + ([e] + (if next <= |s| then Events(s, next, stuck) else []))
            == events + [e] + (if next <= |s| then Events(s, next, stuck) else []);
        events := events + [e];
        p := next;
      case _ =>
        p := Recover(s, Thrown(s, p, stuck));
    }
    if p == |s| {
      assert Events(s, p, stuck) == [];
    }
  }

  lemma NextLies(s: string, p: nat)
    ensures ParseLine(s, p).Line? ==> ParseLine(s, p).next > p
  {
  }

  // ---------- A file of lines ----------

  // A written line, perhaps with spaces and carriage returns behind it; nothing but those; or
  // anything else that is not an object.
  datatype FileLine = Written(members: Members, pad: string) | Blank(pad: string) | Junk(text: string)

  function TextOf(line: FileLine): string {
    match line
    case Written(members, pad) => LineText(members) + pad
    case Blank(pad) => pad
    case Junk(text) => text
  }

  predicate IsPad(t: string) {
    forall c :: c in t ==> c == ' ' || c == '\r'
  }

  predicate LineOk(line: FileLine) {
    && '\n' !in TextOf(line)
    && match line
       case Written(members, pad) => MembersWellFormed(members) && MembersConform(members, false) && IsPad(pad)
       case Blank(pad) => IsPad(pad)
       case Junk(text) => text != [] && text[0] != '{' && text[0] != ' ' && text[0] != '\r'
  }

  predicate FileOk(lines: seq<FileLine>) {
    lines == [] || (LineOk(lines[0]) && FileOk(lines[1..]))
  }

  // The lines one after another; the last one ends in a line feed only if the file is closed.
  function FileText(lines: seq<FileLine>, closed: bool): string {
    if lines == [] then ""
    else if |lines| == 1 && !closed then TextOf(lines[0])
    else TextOf(lines[0]) + ("\n" + FileText(lines[1..], closed))
  }

  // The event of a line, if it is a good one.
  function EventOf(line: FileLine): seq<Fields> {
    match line
    case Written(members, _) =>
      var meaning := MembersMeaning(members, false);
      if Finished(meaning, 0).Line? then [meaning] else []
    case _ => []
  }

  function GoodEvents(lines: seq<FileLine>): seq<Fields> {
    if lines == [] then [] else EventOf(lines[0]) + GoodEvents(lines[1..])
  }

  lemma {:induction false} RecoverAt(s: string, p: nat, end: nat)
    requires p <= end < |s| && s[end] == '\n' && forall j :: p <= j < end ==> s[j] != '\n'
    ensures Recover(s, p) == end + 1
    decreases end - p
  {
    if p < end {
      RecoverAt(s, p + 1, end);
    }
  }

  // From p on there is only padding up to a line end.
  predicate Padded(s: string, p: nat, end: nat) {
    p <= end < |s| && s[end] == '\n' && forall j :: p <= j < end ==> s[j] == ' ' || s[j] == '\r'
  }

  // It is passed over.
  lemma {:induction false} PastLineEnd(s: string, p: nat, end: nat, stuck: seq<nat>)
    requires Padded(s, p, end)
    ensures Events(s, p, stuck) == Events(s, end + 1, stuck)
    decreases end - p
  {
    assert Gaps(s, p) == Gaps(s, p + 1);
    if p < end {
      PastLineEnd(s, p + 1, end, stuck);
    }
  }

  // At p stands the text t of a line, and right behind it its line end.
  ghost predicate LineStands(s: string, p: nat, t: string) {
    && Stands(s, p, t) && p + |t| < |s| && s[p + |t|] == '\n'
    && forall j :: p <= j < p + |t| ==> s[j] != '\n'
  }

  lemma LinePlace(s: string, p: nat, t: string, rest: string)
    requires Stands(s, p, t + ("\n" + rest)) && '\n' !in t
    ensures LineStands(s, p, t) && Stands(s, p + |t| + 1, rest)
  {
    StandsSplit(s, p, t, "\n" + rest);
    StandsSplit(s, p + |t|, "\n", rest);
    assert s[p + |t|..p + |t| + 1][0] == '\n';
    forall j | p <= j < p + |t|
      ensures s[j] != '\n'
    {
      assert s[p..p + |t|][j - p] == s[j];
    }
  }

  lemma WrittenLine(s: string, p: nat, members: Members)
    requires MembersWellFormed(members) && MembersConform(members, false) && Stands(s, p, LineText(members))
    ensures p < |s| && Gaps(s, p) == p && LineEnd(s, p) == p + |LineText(members)|
    ensures ParseLine(s, p) == Finished(MembersMeaning(members, false), p + |LineText(members)|)
  {
    ReadsLine(s, p, members);
    HeaderPlace(s, p, members);
    ReadsMembers(s, p + 1, members, map[], false);
    hide Stands, Render, RenderMembers, MembersMeaning, ParseLine, ReadMembers, MembersWellFormed, MembersConform;
  }

  lemma JunkLine(s: string, p: nat, text: string)
    requires LineOk(Junk(text)) && Stands(s, p, text)
    ensures p < |s| && Gaps(s, p) == p && LineEnd(s, p) == p && ParseLine(s, p) == MissingTime
  {
    assert s[p..p + |text|][0] == text[0];
    assert text[0] in text;
  }

  lemma GoodLine(s: string, p: nat, next: nat, end: nat, e: Fields, stuck: seq<nat>)
    requires p < |s| && Gaps(s, p) == p && ParseLine(s, p) == Line(e, next)
    requires Padded(s, next, end)
    ensures Events(s, p, stuck) == [e] + Events(s, end + 1, stuck)
  {
    hide ParseLine, LineEnd;
    PastLineEnd(s, next, end, stuck);
  }

  lemma BadLine(s: string, p: nat, t: string, stuck: seq<nat>)
    requires LineStands(s, p, t) && Gaps(s, p) == p && !ParseLine(s, p).Line? && LineEnd(s, p) <= p + |t|
    ensures Events(s, p, stuck) == [] + Events(s, p + |t| + 1, stuck)
  {
    hide ParseLine, LineEnd;
    RecoverAt(s, Thrown(s, p, stuck), p + |t|);
    assert [] + Events(s, p + |t| + 1, stuck) == Events(s, p + |t| + 1, stuck);
  }

  lemma PadStands(s: string, p: nat, t: string, pad: string)
    requires LineStands(s, p, t + pad) && IsPad(pad)
    ensures Stands(s, p, t) && Padded(s, p + |t|, p + |t + pad|)
  {
    StandsSplit(s, p, t, pad);
    forall j | p + |t| <= j < p + |t + pad|
      ensures s[j] in pad
    {
      assert s[p + |t|..p + |t + pad|][j - p - |t|] == s[j];
    }
  }

  lemma OneWritten(s: string, p: nat, members: Members, pad: string, stuck: seq<nat>)
    requires LineOk(Written(members, pad)) && LineStands(s, p, LineText(members) + pad)
    ensures Events(s, p, stuck) ==
      EventOf(Written(members, pad)) + Events(s, p + |LineText(members) + pad| + 1, stuck)
  {
    hide Events, LineText, MembersMeaning, ParseLine, LineEnd, Stands, LineStands, Padded, IsPad;
    var t := LineText(members);
    PadStands(s, p, t, pad);
    WrittenLine(s, p, members);
    if Finished(MembersMeaning(members, false), 0).Line? {
      GoodLine(s, p, p + |t|, p + |t + pad|, MembersMeaning(members, false), stuck);
    } else {
      BadLine(s, p, t + pad, stuck);
    }
  }

  lemma OneLine(s: string, p: nat, line: FileLine, stuck: seq<nat>)
    requires LineOk(line) && LineStands(s, p, TextOf(line))
    ensures Events(s, p, stuck) == EventOf(line) + Events(s, p + |TextOf(line)| + 1, stuck)
  {
    hide Events, LineText;
    match line
    case Written(members, pad) => OneWritten(s, p, members, pad, stuck);
    case Blank(pad) =>
      assert [] + pad == pad;
      PadStands(s, p, [], pad);
      PastLineEnd(s, p, p + |pad|, stuck);
      assert [] + Events(s, p + |pad| + 1, stuck) == Events(s, p + |pad| + 1, stuck);
    case Junk(text) =>
      JunkLine(s, p, text);
      hide ParseLine, LineOk, LineEnd, Stands;
      BadLine(s, p, text, stuck);
  }

  // ---------- The last line, without a line feed ----------

  lemma {:induction false} GapsToEnd(s: string, p: nat, stuck: seq<nat>)
    requires p <= |s| && forall j :: p <= j < |s| ==> s[j] == ' ' || s[j] == '\r'
    ensures Events(s, p, stuck) == []
    decreases |s| - p
  {
    assert p < |s| ==> Gaps(s, p) == Gaps(s, p + 1);
    if p < |s| {
      GapsToEnd(s, p + 1, stuck);
    }
  }

  lemma {:induction false} RecoverToEnd(s: string, p: nat)
    requires p <= |s| && forall j :: p <= j < |s| ==> s[j] != '\n'
    ensures Recover(s, p) == |s|
    decreases |s| - p
  {
    if p < |s| {
      RecoverToEnd(s, p + 1);
    }
  }

  lemma LastBad(s: string, p: nat, stuck: seq<nat>)
    requires p < |s| && Gaps(s, p) == p && !ParseLine(s, p).Line?
    requires forall j :: p <= j < |s| ==> s[j] != '\n'
    ensures Events(s, p, stuck) == []
  {
    hide ParseLine, LineEnd;
    RecoverToEnd(s, Thrown(s, p, stuck));
  }

  lemma LastGood(s: string, p: nat, next: nat, e: Fields, stuck: seq<nat>)
    requires p < |s| && Gaps(s, p) == p && ParseLine(s, p) == Line(e, next) && next <= |s|
    requires forall j :: next <= j < |s| ==> s[j] == ' ' || s[j] == '\r'
    ensures Events(s, p, stuck) == [e]
  {
    hide ParseLine, LineEnd;
    GapsToEnd(s, next, stuck);
  }

  lemma StandsHere(s: string, p: nat, t: string)
    requires Stands(s, p, t)
    ensures forall j :: p <= j < p + |t| ==> s[j] in t
  {
    forall j | p <= j < p + |t|
      ensures s[j] in t
    {
      assert s[p..p + |t|][j - p] == s[j];
    }
  }

  lemma LastLine(s: string, p: nat, line: FileLine, stuck: seq<nat>)
    requires LineOk(line) && Stands(s, p, TextOf(line)) && p + |TextOf(line)| == |s|
    ensures Events(s, p, stuck) == EventOf(line)
  {
    StandsHere(s, p, TextOf(line));
    hide Events, LineText;
    match line
    case Written(members, pad) =>
      var t := LineText(members);
      StandsSplit(s, p, t, pad);
      StandsHere(s, p + |t|, pad);
      WrittenLine(s, p, members);
      hide ParseLine, LineEnd, Stands, MembersMeaning, MembersWellFormed, MembersConform;
      if Finished(MembersMeaning(members, false), 0).Line? {
        LastGood(s, p, p + |t|, MembersMeaning(members, false), stuck);
      } else {
        LastBad(s, p, stuck);
      }
    case Blank(pad) => GapsToEnd(s, p, stuck);
    case Junk(text) =>
      JunkLine(s, p, text);
      hide ParseLine, LineEnd, Stands;
      LastBad(s, p, stuck);
  }

  // ---------- All the lines ----------

  lemma FirstPlace(lines: seq<FileLine>, closed: bool, s: string, p: nat)
    requires lines != [] && (|lines| > 1 || closed) && LineOk(lines[0]) && Stands(s, p, FileText(lines, closed))
    ensures var next := p + |TextOf(lines[0])| + 1;
      && LineStands(s, p, TextOf(lines[0])) && Stands(s, next, FileText(lines[1..], closed))
      && p + |FileText(lines, closed)| == next + |FileText(lines[1..], closed)|
  {
    var t, rest := TextOf(lines[0]), FileText(lines[1..], closed);
    assert FileText(lines, closed) == t + ("\n" + rest);
    hide Stands, LineStands, TextOf, LineOk, FileText;
    NoLineEnd(lines[0]);
    LinePlace(s, p, t, rest);
  }

  ghost predicate Gives(s: string, p: nat, stuck: seq<nat>, events: seq<Fields>) {
    p <= |s| && Events(s, p, stuck) == events
  }

  lemma FirstLine(lines: seq<FileLine>, closed: bool, s: string, p: nat, stuck: seq<nat>, events: seq<Fields>)
    requires lines != [] && (|lines| > 1 || closed) && LineOk(lines[0]) && Stands(s, p, FileText(lines, closed))
    requires Gives(s, p + |TextOf(lines[0])| + 1, stuck, events)
    ensures Gives(s, p, stuck, EventOf(lines[0]) + events)
  {
    hide Stands, LineStands, TextOf, EventOf, Events, LineOk, FileText;
    FirstPlace(lines, closed, s, p);
    OneLine(s, p, lines[0], stuck);
  }

  // A file gives the events of its good lines, in order, wherever in a bad line the parser
  // gave up.
  lemma {:induction false} FileEvents(lines: seq<FileLine>, closed: bool, s: string, p: nat, stuck: seq<nat>)
    requires FileOk(lines) && Stands(s, p, FileText(lines, closed)) && p + |FileText(lines, closed)| == |s|
    ensures Gives(s, p, stuck, GoodEvents(lines))
    decreases |lines|
  {
    if lines == [] {
      FileEnd(s, stuck);
    } else if |lines| == 1 && !closed {
      OnlyLine(lines[0], s, p, stuck);
      assert GoodEvents([lines[0]]) == EventOf(lines[0]) + [] && lines == [lines[0]];
    } else {
      FirstPlace(lines, closed, s, p);
      FileEvents(lines[1..], closed, s, p + |TextOf(lines[0])| + 1, stuck);
      hide Gives, Stands, LineStands, TextOf, EventOf, FileText;
      FirstLine(lines, closed, s, p, stuck, GoodEvents(lines[1..]));
    }
  }

  lemma OnlyLine(line: FileLine, s: string, p: nat, stuck: seq<nat>)
    requires LineOk(line) && Stands(s, p, TextOf(line)) && p + |TextOf(line)| == |s|
    ensures Gives(s, p, stuck, EventOf(line) + [])
  {
    hide Events, TextOf, EventOf, LineOk;
    LastLine(s, p, line, stuck);
    assert EventOf(line) + [] == EventOf(line);
  }

  lemma FileEnd(s: string, stuck: seq<nat>)
    ensures Gives(s, |s|, stuck, [])
  {
  }

  lemma NoLineEnd(line: FileLine)
    requires LineOk(line)
    ensures '\n' !in TextOf(line)
  {
  }

  lemma ParsesFile(lines: seq<FileLine>, closed: bool, stuck: seq<nat>)
    requires FileOk(lines)
    ensures Events(FileText(lines, closed), 0, stuck) == GoodEvents(lines)
  {
    assert FileText(lines, closed)[0..0 + |FileText(lines, closed)|] == FileText(lines, closed);
    FileEvents(lines, closed, FileText(lines, closed), 0, stuck);
  }
}
