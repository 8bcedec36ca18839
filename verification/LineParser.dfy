// One line of input: an object whose members are told apart by the length and a letter or
// two of their keys, each read by its own little parser or skipped.
module LineParser {
  import opened JsonSkip
  import opened IsoTimestamp

  datatype Field =
    | Side | Size | Price | FlagBits | Action | TsRecv | OrderId | Sequence | ChannelId | TsInDelta
    | RType | TsEvent | PublisherId | InstrumentId | Failed

  // The fields of the event that have been assigned; a timestamp that throws sets Failed.
  type Fields = map<Field, int>

  // How the value behind a key is read.
  datatype Kind = Header | Letter(f: Field) | Unsigned(f: Field,
      width: nat) | Signed | Decimal | Time(f: Field) | Id | Ignored

  const WORD32: nat := 0x1_0000_0000
  const WORD64: nat := 0x1_0000_0000_0000_0000

  // The switch over the key's length, then over its letters.
  function LineKind(key: string): Kind {
    if |key| == 2 then (if key[0] == 'h' then Header else Ignored)
    else if |key| == 4 then
      (if key[0] != 's' then Ignored else if key[2] == 'd' then Letter(Side) else Unsigned(Size, WORD32))
    else if |key| == 5 then
      (if key[0] == 'p' then Decimal else if key[0] == 'f' then Unsigned(FlagBits, 0x100) else Ignored)
    else if |key| == 6 then (if key[0] == 'a' then Letter(Action) else Ignored)
    else if |key| == 7 then (if key[0] == 't' then Time(TsRecv) else Ignored)
    else if |key| == 8 then
      (if key[0] == 'o' then Id else if key[0] == 's' then Unsigned(Sequence, WORD32) else Ignored)
    else if |key| == 10 then (if key[0] == 'c' then Unsigned(ChannelId, 0x1_0000) else Ignored)
    else if |key| == 11 then (if key[0] == 't' then Signed else Ignored)
    else Ignored
  }

  // Inside the header only the length counts.
  function HeaderKind(key: string): Kind {
    if |key| == 5 then Unsigned(RType, 0x100)
    else if |key| == 8 then Time(TsEvent)
    else if |key| == 12 then Unsigned(PublisherId, 0x1_0000)
    else if |key| == 13 then Unsigned(InstrumentId, WORD32)
    else Ignored
  }

  function KindOf(key: string, inner: bool): Kind {
    if inner then HeaderKind(key) else LineKind(key)
  }

  // ---------- What a value means to a field ----------

  predicate AllDigits(t: string) {
    forall i :: 0 <= i < |t| ==> IsDigit(t[i])
  }

  // A number read digit by digit into an unsigned word.
  function WordValue(t: string, word: nat): nat
    requires word > 0
  {
    if t == [] then 0 else ((WordValue(t[..|t| - 1], word) * 10 + DigitAt(t, |t| - 1)) % word)
  }

  function LetterValue(f: Field, c: char): int {
    if f != Side then c as int
    else if c == 'B' then 1
    else if c == 'S' || c == 'A' then -1
    else 0
  }

  // Two's complement of a 32-bit word.
  function ToSigned(v: nat): int {
    if v < 0x8000_0000 then v else v - WORD32
  }

  function SignedValue(t: string): int {
    if t != [] && t[0] == '-' then -ToSigned(WordValue(t[1..], WORD32)) else ToSigned(WordValue(t, WORD32))
  }

  function DotIn(t: string): (i: nat)
    ensures i <= |t|
  {
    if t == [] || t[0] == '.' then 0 else 1 + DotIn(t[1..])
  }

  // At most nine characters behind the dot, in billionths.
  function Decimals(tail: string): int {
    var digits := if |tail| < 9 then tail else tail[..9];
    Value(digits) * Pow10(9 - |digits|)
  }

  // A decimal price in billionths.
  function PriceValue(t: string): int {
    var negative := t != [] && t[0] == '-';
    var body := if negative then t[1..] else t;
    var dot := DotIn(body);
    var whole := Value(body[..dot]);
    var tail := if dot < |body| then body[dot + 1..] else [];
    var raw := whole * 1000000000 + Decimals(tail);
    if negative then -raw else raw
  }

  function TimeFields(f: Field, t: string): Fields {
    match Parsed(t)
    case Nanos(v) => map[f := v]
    case BadTimestamp => map[Failed := 1]
  }

  function DigitsEnd(s: string, p: nat): (q: nat)
    ensures p <= q && (p <= |s| ==> q <= |s|)
    decreases |s| - p
  {
    if p < |s| && IsDigit(s[p]) then DigitsEnd(s, p + 1) else p
  }

  // The fields a value assigns, read off the value itself.
  function Meaning(kind: Kind, j: Json): Fields
    decreases j
  {
    match kind
    case Ignored => map[]
    case Header => if j.Obj? then MembersMeaning(j.members, true) else map[]
    case Letter(f) => if j.Str? && j.text != [] then map[f := LetterValue(f, j.text[0])] else map[]
    case Unsigned(f, width) =>
      if j.Scalar? && j.text != [] && IsDigit(j.text[0]) && width > 0
      then map[f := WordValue(j.text, WORD32) % width] else map[]
    case Signed =>
      if j.Scalar? && j.text != [] && (j.text[0] ==
          '-' || IsDigit(j.text[0])) then map[TsInDelta := SignedValue(j.text)]
      else map[]
    case Decimal => if j.Str? && j.text != [] then map[Price := PriceValue(j.text)] else map[]
    case Time(f) => if j.Str? && j.text != [] then TimeFields(f, j.text) else map[]
    case Id => if j.Str? then map[OrderId := WordValue(j.text[..DigitsEnd(j.text, 0)], WORD64)] else map[]
  }

  function MembersMeaning(members: Members, inner: bool): Fields
    decreases members
  {
    match members
    case NoMembers => map[]
    case Member(key, value, rest) => Meaning(KindOf(key, inner), value) + MembersMeaning(rest, inner)
  }

  // The values each field's little parser is written for; other kinds of value are skipped.
  predicate Conforms(kind: Kind, j: Json)
    decreases j
  {
    match kind
    case Header => j.Obj? && MembersConform(j.members, true)
    case Letter(_) => j.Str? ==> j.text != []
    case Unsigned(_, width) => width > 0 && (j.Scalar? && j.text != [] && IsDigit(j.text[0]) ==> AllDigits(j.text))
    case Signed =>
      j.Scalar? && j.text != [] ==>
        (IsDigit(j.text[0]) ==> AllDigits(j.text)) && (j.text[0] == '-' ==> AllDigits(j.text[1..]))
    case Decimal => j.Scalar? && j.text != [] && j.text[0] == 'n' ==> |j.text| == 4
    case _ => true
  }

  predicate MembersConform(members: Members, inner: bool)
    decreases members
  {
    members.Member? ==> Conforms(KindOf(members.key, inner), members.value) && MembersConform(members.rest, inner)
  }

  // ---------- The parser ----------

  function Separators(s: string, p: nat): (q: nat)
    ensures p <= q && (p <= |s| ==> q <= |s|)
    decreases |s| - p
  {
    if p < |s| && (s[p] == ' ' || s[p] == ',') then Separators(s, p + 1) else p
  }

  function Colons(s: string, p: nat): (q: nat)
    ensures p <= q && (p <= |s| ==> q <= |s|)
    decreases |s| - p
  {
    if p < |s| && (s[p] == ':' || s[p] == ' ') then Colons(s, p + 1) else p
  }

  function Starts(s: string, p: nat, c: char): bool {
    p < |s| && s[p] == c
  }

  function TextAt(s: string, p: nat): string
    requires p <= |s|
  {
    s[p..ToQuote(s, p)]
  }

  // One value, read or skipped; the result is what it assigns and where it leaves off.
  function ReadValue(s: string, v: nat, kind: Kind): (r: (Fields, nat))
    requires v <= |s|
    ensures v <= r.1
    decreases |s| - v
  {
    match kind
    case Ignored => (map[], Skip(s, v))
    case Header => if Starts(s, v, '{') then ReadMembers(s, v + 1, map[], true) else (map[], v)
    case Letter(f) =>
      if !Starts(s, v, '"') then (map[], Skip(s, v))
      else if v + 1 < |s| then (map[f := LetterValue(f, s[v + 1])], PastQuote(s, v + 2))
      else (map[], PastQuote(s, v + 1))
    case Unsigned(f, width) =>
      if v < |s| && IsDigit(s[v]) && width > 0
      then (map[f := WordValue(s[v..DigitsEnd(s, v)], WORD32) % width], DigitsEnd(s, v))
      else (map[], Skip(s, v))
    case Signed =>
      if Starts(s, v, '-') || (v < |s| && IsDigit(s[v])) then
        var end := DigitsEnd(s, if s[v] == '-' then v + 1 else v);
        (map[TsInDelta := SignedValue(s[v..end])], end)
      else (map[], Skip(s, v))
    case Decimal =>
      if Starts(s, v, 'n') then (map[], v + 4)
      else if Starts(s, v, '"') then
        (if TextAt(s, v + 1) != [] then map[Price := PriceValue(TextAt(s, v + 1))] else map[], PastQuote(s, v + 1))
      else (map[], Skip(s, v))
    case Time(f) =>
      if Starts(s, v, '"') then
        (if TextAt(s, v + 1) != [] then TimeFields(f, TextAt(s, v + 1)) else map[], PastQuote(s, v + 1))
      else (map[], Skip(s, v))
    case Id =>
      if Starts(s, v, '"') then
        var end := DigitsEnd(s, v + 1);
        (map[OrderId := WordValue(s[v + 1..end], WORD64)], PastQuote(s, end))
      else (map[], Skip(s, v))
  }

  // The loop over the members of an object, from just after its opening brace.
  function ReadMembers(s: string, p: nat, e: Fields, inner: bool): (r: (Fields, nat))
    ensures p <= r.1
    decreases |s| - p
  {
    var q := Separators(s, p);
    if q >= |s| then (e, q)
    else if s[q] == '}' then (e, q + 1)
    else if s[q] != '"' then ReadMembers(s, q + 1, e, inner)
    else
      var v := Colons(s, PastQuote(s, q + 1));
      var (delta, r) := ReadValue(s, v, KindOf(TextAt(s, q + 1), inner));
      ReadMembers(s, r, e + delta, inner)
  }

  datatype Outcome = Line(fields: Fields, next: nat) | BadTime | MissingTime

  function Finished(e: Fields, next: nat): Outcome {
    if Failed in e then BadTime
    else if TsRecv !in e || e[TsRecv] == 0 then MissingTime
    else Line(e, next)
  }

  function ParseLine(s: string, p: nat): Outcome {
    if !Starts(s, p, '{') then MissingTime
    else
      var (e, next) := ReadMembers(s, p + 1, map[], false);
      Finished(e, next)
  }

  lemma WordValueSnoc(s: string, i: nat, j: nat, word: nat)
    requires i <= j < |s| && word > 0
    ensures WordValue(s[i..j + 1], word) == (WordValue(s[i..j], word) * 10 + DigitAt(s, j)) % word
  {
    var t := s[i..j + 1];
    assert t[..|t| - 1] == s[i..j] && t[|t| - 1] == s[j];
    assert WordValue(t, word) == (WordValue(t[..|t| - 1], word) * 10 + DigitAt(t, |t| - 1)) % word;
    hide WordValue;
  }

  // The integer loop of parse_u32 and parse_u64.
  method ParseUnsigned(s: string, start: nat, word: nat) returns (v: nat, p: nat)
    requires start <= |s| && word > 0
    ensures p == DigitsEnd(s, start) && v == WordValue(s[start..p], word)
  {
    v, p := 0, start;
    assert s[start..p] == [];
    while p < |s| && IsDigit(s[p])
      invariant start <= p <= |s| && DigitsEnd(s, p) == DigitsEnd(s, start)
      invariant v == WordValue(s[start..p], word)
    {
      WordValueSnoc(s, start, p, word);
      v := (v * 10 + DigitAt(s, p)) % word;
      p := p + 1;
    }
  }

  // parse_i32: an optional sign and a 32-bit word.
  method ParseSigned(s: string, start: nat) returns (v: int, p: nat)
    requires start <= |s|
    ensures p == DigitsEnd(s, if Starts(s, start, '-') then start + 1 else start)
    ensures start <= p <= |s| && v == SignedValue(s[start..p])
  {
    var negative := Starts(s, start, '-');
    var word;
    word, p := ParseUnsigned(s, if negative then start + 1 else start, WORD32);
    v := if negative then -ToSigned(word) else ToSigned(word);
    if negative {
      assert s[start..p][1..] == s[start + 1..p] && s[start..p][0] == '-';
    } else if start < p {
      assert s[start..p][0] == s[start];
    }
  }

  lemma {:induction false} DotInAt(t: string, n: nat)
    requires n <= |t| && (forall j :: 0 <= j < n ==> t[j] != '.') && (n < |t| ==> t[n] == '.')
    ensures DotIn(t) == n
  {
    if n > 0 {
      DotInAt(t[1..], n - 1);
    }
  }

  // The loops over a price: whole part, at most nine decimals, then zeros for the rest.
  method ParsePrice(t: string) returns (price: int)
    ensures price == PriceValue(t)
  {
    hide Value, Decimals;
    var negative := t != [] && t[0] == '-';
    var first := if negative then 1 else 0;
    ghost var body := t[first..];
    var whole, k := 0, first;
    NoValue(t, first);
    while k < |t| && t[k] != '.'
      invariant first <= k <= |t| && forall j :: first <= j < k ==> t[j] != '.'
      invariant whole == Value(t[first..k])
    {
      ValueSnoc(t, first, k);
      whole := whole * 10 + DigitAt(t, k);
      k := k + 1;
    }
    DotInAt(body, k - first);
    assert body[..k - first] == t[first..k];
    ghost var tail := if k < |t| then t[k + 1..] else [];
    assert k < |t| ==> body[k - first + 1..] == tail;
    var decimals := ParseDecimals(t, k, tail);
    var raw := whole * 1000000000 + decimals;
    price := if negative then -raw else raw;
    assert body == if negative then t[1..] else t;
  }

  lemma NoValue(t: string, i: nat)
    requires i <= |t|
    ensures Value(t[i..i]) == 0 && Value([]) == 0
  {
  }

  method ParseDecimals(t: string, dot: nat, ghost tail: string) returns (fraction: int)
    requires dot <= |t| && tail == if dot < |t| then t[dot + 1..] else []
    ensures fraction == Decimals(tail)
  {
    hide Value, Pow10;
    fraction := 0;
    NoValue(t, dot);
    if dot < |t| {
      var digits, k := 0, dot + 1;
      NoValue(t, k);
      while k < |t| && digits < 9
        invariant dot + 1 <= k <= |t| && digits == k - dot - 1 <= 9
        invariant fraction == Value(t[dot + 1..k])
      {
        ValueSnoc(t, dot + 1, k);
        fraction := fraction * 10 + DigitAt(t, k);
        digits, k := digits + 1, k + 1;
      }
      assert t[dot + 1..k] == if |tail| < 9 then tail else tail[..9];
      ghost var read := fraction;
      ghost var count := digits;
      PowZero();
      while digits < 9
        invariant count <= digits <= 9 && fraction == read * Pow10(digits - count)
      {
        PowNext(read, digits - count);
        fraction := fraction * 10;
        digits := digits + 1;
      }
    }
  }

  lemma PowZero()
    ensures Pow10(0) == 1
  {
  }

  lemma PowNext(v: int, k: nat)
    ensures v * Pow10(k) * 10 == v * Pow10(k + 1)
  {
  }

  // The characters up to the next quote, and the position behind it.
  method ScanText(s: string, start: nat) returns (text: string, p: nat)
    requires start <= |s|
    ensures text == TextAt(s, start) && p == PastQuote(s, start)
  {
    p := start;
    while p < |s| && s[p] != '"'
      invariant start <= p <= |s| && ToQuote(s, p) == ToQuote(s, start)
    {
      p := p + 1;
    }
    text := s[start..p];
    if p < |s| {
      p := p + 1;
    }
  }

  // The value behind a key, read by the field's own loops or skipped.
  method ParseValue(s: string, v: nat, kind: Kind) returns (delta: Fields, p: nat)
    requires v <= |s|
    ensures (delta, p) == ReadValue(s, v, kind)
    decreases |s| - v
  {
    delta := map[];
    if kind.Header? {
      p := v;
      if Starts(s, v, '{') {
        delta, p := ParseMembers(s, v + 1, true);
      }
      return;
    }
    if (kind.Letter? || kind.Time? || kind.Id?) && Starts(s, v, '"') {
      delta, p := ParseString(s, v + 1, kind);
    } else if kind.Decimal? && Starts(s, v, 'n') {
      p := v + 4;
    } else if kind.Decimal? && Starts(s, v, '"') {
      delta, p := ParseString(s, v + 1, kind);
    } else if kind.Unsigned? && v < |s| && IsDigit(s[v]) && kind.width > 0 {
      var word;
      word, p := ParseUnsigned(s, v, WORD32);
      delta := map[kind.f := word % kind.width];
    } else if kind.Signed? && (Starts(s, v, '-') || (v < |s| && IsDigit(s[v]))) {
      var number;
      number, p := ParseSigned(s, v);
      delta := map[TsInDelta := number];
    } else {
      p := SkipVal(s, v);
    }
  }

  // The value of a quoted field, from just after its opening quote.
  method ParseString(s: string, start: nat, kind: Kind) returns (delta: Fields, p: nat)
    requires 0 < start <= |s| && s[start - 1] == '"'
    requires kind.Letter? || kind.Time? || kind.Id? || kind.Decimal?
    ensures (delta, p) == ReadValue(s, start - 1, kind)
  {
    delta, p := map[], start;
    var text;
    match kind
    case Letter(f) =>
      if p < |s| {
        delta := map[f := LetterValue(f, s[p])];
        p := p + 1;
      }
      text, p := ScanText(s, p);
    case Id =>
      var word;
      word, p := ParseUnsigned(s, p, WORD64);
      delta := map[OrderId := word];
      text, p := ScanText(s, p);
    case Decimal =>
      text, p := ScanText(s, p);
      if text != [] {
        var price := ParsePrice(text);
        delta := map[Price := price];
      }
    case Time(f) =>
      text, p := ScanText(s, p);
      if text != [] {
        var time := ParseIso8601Nanos(text);
        match time
        case Nanos(value) => delta := map[f := value];
        case BadTimestamp => delta := map[Failed := 1];
      }
  }

  // What the loop makes of the place behind the separators.
  lemma MembersAt(s: string, p: nat, e: Fields, inner: bool)
    ensures var q := Separators(s, p);
      ReadMembers(s, p, e, inner) ==
        if q >= |s| then (e, q)
        else if s[q] == '}' then (e, q + 1)
        else if s[q] != '"' then ReadMembers(s, q + 1, e, inner)
        else
          var (delta, r) := ReadValue(s, Colons(s, PastQuote(s, q + 1)), KindOf(TextAt(s, q + 1), inner));
          ReadMembers(s, r, e + delta, inner)
  {
    hide ReadValue, KindOf, Separators, Colons, PastQuote, TextAt;
  }

  // The loop shared by the line and its header.
  method ParseMembers(s: string, start: nat, inner: bool) returns (e: Fields, p: nat)
    ensures (e, p) == ReadMembers(s, start, map[], inner)
    decreases |s| - start
  {
    hide ReadValue, ReadMembers, KindOf, PastQuote, TextAt;
    e, p := map[], start;
    while p < |s|
      invariant start <= p && ReadMembers(s, p, e, inner) == ReadMembers(s, start, map[], inner)
      decreases |s| - p
    {
      var from := p;
      while p < |s| && (s[p] == ' ' || s[p] == ',')
        invariant from <= p <= |s| && Separators(s, p) == Separators(s, from)
      {
        p := p + 1;
      }
      MembersAt(s, from, e, inner);
      if p >= |s| {
        return;
      }
      if s[p] == '}' {
        p := p + 1;
        return;
      }
      if s[p] != '"' {
        p := p + 1;
        continue;
      }
      var key;
      key, p := ScanText(s, p + 1);
      var colon := p;
      while p < |s| && (s[p] == ':' || s[p] == ' ')
        invariant colon <= p <= |s| && Colons(s, p) == Colons(s, colon)
      {
        p := p + 1;
      }
      var delta;
      delta, p := ParseValue(s, p, KindOf(key, inner));
      e := e + delta;
    }
    MembersAt(s, p, e, inner);
  }

  // One line: fields, or the reason why there is no event.
  method ParseOneLine(s: string, start: nat) returns (r: Outcome)
    ensures r == ParseLine(s, start)
  {
    if !Starts(s, start, '{') {
      return MissingTime;
    }
    var e, p := ParseMembers(s, start + 1, false);
    r := Finished(e, p);
  }

  // ---------- Reading one value of the grammar ----------

  predicate Delimited(s: string, q: nat) {
    q < |s| && (s[q] == ',' || s[q] == '}')
  }

  lemma {:induction false} DigitsEndAt(s: string, p: nat, t: string)
    requires Stands(s, p, t) && AllDigits(t) && p + |t| < |s| && !IsDigit(s[p + |t|])
    ensures DigitsEnd(s, p) == p + |t|
    decreases |t|
  {
    if t != [] {
      assert s[p..p + |t|][0] == t[0];
      assert s[p + 1..p + |t|] == t[1..];
      DigitsEndAt(s, p + 1, t[1..]);
    }
  }

  // The digits that begin a quoted text end within it.
  lemma {:induction false} DigitsWithin(s: string, p: nat, t: string, i: nat)
    requires i <= |t| && Unquoted(t) && Stands(s, p, t + "\"")
    ensures DigitsEnd(s, p + i) == p + DigitsEnd(t, i) && DigitsEnd(t, i) <= |t|
    decreases |t| - i
  {
    assert (t + "\"")[i] == s[p..p + |t| + 1][i] == s[p + i];
    if i < |t| && IsDigit(t[i]) {
      DigitsWithin(s, p, t, i + 1);
    }
  }

  // A quoted value: the text is found and the closing quote passed.
  lemma StringValue(s: string, v: nat, t: string)
    requires Unquoted(t) && Stands(s, v, Quoted(t))
    ensures Starts(s, v, '"') && Stands(s, v + 1, t + "\"")
    ensures TextAt(s, v + 1) == t && PastQuote(s, v + 1) == v + |Quoted(t)|
  {
    StandsSplit(s, v, "\"", t + "\"");
    assert s[v..v + 1][0] == '"';
    ToQuoteText(s, v + 1, t);
    StandsSplit(s, v + 1, t, "\"");
  }

  // The first character tells the kinds of value apart.
  lemma FirstChar(s: string, v: nat, j: Json)
    requires WellFormed(j) && Stands(s, v, Render(j))
    ensures v < |s| && s[v] != ':' && s[v] != ' ' && s[v] != ','
    ensures (s[v] == '"' <==> j.Str?) && (s[v] == '{' <==> j.Obj?)
    ensures j.Scalar? ==> j.text != [] && s[v] == j.text[0]
    ensures !j.Scalar? ==> s[v] == '"' || IsOpen(s[v])
  {
    assert Render(j) != [];
    assert s[v..v + |Render(j)|][0] == Render(j)[0];
  }

  // The rest of a quoted text, from its i-th character on.
  lemma RestOfText(s: string, p: nat, t: string, i: nat)
    requires i <= |t| && Unquoted(t) && Stands(s, p, t + "\"")
    ensures PastQuote(s, p + i) == p + |t| + 1
  {
    assert t + "\"" == t[..i] + (t[i..] + "\"");
    StandsSplit(s, p, t[..i], t[i..] + "\"");
    ToQuoteText(s, p + i, t[i..]);
  }

  lemma ReadLetter(s: string, v: nat, f: Field, t: string)
    requires Unquoted(t) && t != [] && Stands(s, v, Quoted(t))
    ensures ReadValue(s, v, Letter(f)) == (map[f := LetterValue(f, t[0])], v + |Quoted(t)|)
  {
    StringValue(s, v, t);
    assert s[v + 1..v + 1 + |t| + 1][0] == (t + "\"")[0] == t[0];
    RestOfText(s, v + 1, t, 1);
  }

  lemma ReadId(s: string, v: nat, t: string)
    requires Unquoted(t) && Stands(s, v, Quoted(t))
    ensures ReadValue(s, v, Id) == (map[OrderId := WordValue(t[..DigitsEnd(t, 0)], WORD64)], v + |Quoted(t)|)
  {
    StringValue(s, v, t);
    DigitsWithin(s, v + 1, t, 0);
    RestOfText(s, v + 1, t, DigitsEnd(t, 0));
    StandsSplit(s, v + 1, t, "\"");
    var k := DigitsEnd(t, 0);
    assert s[v + 1..v + 1 + k] == s[v + 1..v + 1 + |t|][..k];
  }

  lemma ReadText(s: string, v: nat, kind: Kind, t: string)
    requires (kind.Decimal? || kind.Time?) && Unquoted(t) && Stands(s, v, Quoted(t))
    ensures ReadValue(s, v, kind) == (Meaning(kind, Str(t)), v + |Quoted(t)|)
  {
    StringValue(s, v, t);
  }

  lemma ReadUnsigned(s: string, v: nat, f: Field, width: nat, t: string)
    requires width > 0 && t != [] && AllDigits(t) && Stands(s, v, t) && Delimited(s, v + |t|)
    ensures ReadValue(s, v, Unsigned(f, width)) == (map[f := WordValue(t, WORD32) % width], v + |t|)
  {
    assert s[v..v + |t|][0] == t[0];
    DigitsEndAt(s, v, t);
  }

  lemma ReadSigned(s: string, v: nat, t: string)
    requires t != [] && Stands(s, v, t) && Delimited(s, v + |t|)
    requires AllDigits(t) || (t[0] == '-' && AllDigits(t[1..]))
    ensures ReadValue(s, v, Signed) == (map[TsInDelta := SignedValue(t)], v + |t|)
  {
    assert s[v..v + |t|][0] == t[0];
    if t[0] == '-' {
      assert s[v + 1..v + |t|] == t[1..];
      DigitsEndAt(s, v + 1, t[1..]);
    } else {
      DigitsEndAt(s, v, t);
    }
  }

  // Where a value of another kind stands, it is skipped.
  lemma ReadOther(s: string, v: nat, kind: Kind, j: Json)
    requires WellFormed(j) && Stands(s, v, Render(j)) && Delimited(s, v + |Render(j)|)
    requires !kind.Header?
    requires kind.Letter? || kind.Time? || kind.Id? || kind.Decimal? ==> !j.Str?
    requires kind.Decimal? ==> j.Scalar? ==> j.text != [] && j.text[0] != 'n'
    requires kind.Unsigned? && j.Scalar? ==> j.text != [] && !IsDigit(j.text[0])
    requires kind.Signed? && j.Scalar? ==> j.text != [] && !IsDigit(j.text[0]) && j.text[0] != '-'
    ensures ReadValue(s, v, kind) == (Meaning(kind, j), v + |Render(j)|)
  {
    FirstChar(s, v, j);
    SkipsOneValue(s, v, j);
  }

  lemma HeaderPlace(s: string, v: nat, members: Members)
    requires Stands(s, v, Render(Obj(members)))
    ensures Starts(s, v, '{') && Stands(s, v + 1, RenderMembers(members) + "}")
    ensures |Render(Obj(members))| == |RenderMembers(members)| + 2
  {
    StandsSplit(s, v, "{", RenderMembers(members) + "}");
    assert s[v..v + 1][0] == '{';
  }

  lemma HeaderIs(s: string, v: nat, members: Members)
    requires Starts(s, v, '{')
    ensures ReadValue(s, v, Header) == ReadMembers(s, v + 1, map[], true)
    ensures Meaning(Header, Obj(members)) == MembersMeaning(members, true)
    ensures map[] + MembersMeaning(members, true) == MembersMeaning(members, true)
  {
  }

  lemma {:induction false} ReadsHeader(s: string, v: nat, j: Json)
    requires WellFormed(j) && Conforms(Header, j) && Stands(s, v, Render(j))
    ensures ReadValue(s, v, Header) == (Meaning(Header, j), v + |Render(j)|)
    decreases j, 0
  {
    assert MembersWellFormed(j.members) && MembersConform(j.members, true);
    hide ReadValue, ReadMembers, Meaning, MembersMeaning, Render, RenderMembers, Stands, WellFormed, Conforms;
    hide MembersWellFormed, MembersConform, Starts;
    HeaderPlace(s, v, j.members);
    HeaderIs(s, v, j.members);
    ReadsMembers(s, v + 1, j.members, map[], true);
  }

  lemma ReadsOther(s: string, v: nat, kind: Kind, j: Json)
    requires WellFormed(j) && Conforms(kind, j) && Stands(s, v, Render(j)) && Delimited(s, v + |Render(j)|)
    requires !j.Str? && !kind.Header?
    ensures ReadValue(s, v, kind) == (Meaning(kind, j), v + |Render(j)|)
  {
    FirstChar(s, v, j);
    hide Stands, Render, Meaning, Delimited, WellFormed;
    if j.Scalar? && kind.Unsigned? && IsDigit(j.text[0]) {
      ScalarUnsigned(s, v, kind, j);
    } else if j.Scalar? && kind.Signed? && (IsDigit(j.text[0]) || j.text[0] == '-') {
      ScalarSigned(s, v, j);
    } else if j.Scalar? && kind.Decimal? && j.text[0] == 'n' {
      ScalarNull(s, v, j);
    } else {
      ReadOther(s, v, kind, j);
    }
  }

  lemma ScalarUnsigned(s: string, v: nat, kind: Kind, j: Json)
    requires kind.Unsigned? && j.Scalar? && j.text != [] && IsDigit(j.text[0]) && Conforms(kind, j)
    requires Stands(s, v, Render(j)) && Delimited(s, v + |Render(j)|)
    ensures ReadValue(s, v, kind) == (Meaning(kind, j), v + |Render(j)|)
  {
    ReadUnsigned(s, v, kind.f, kind.width, j.text);
  }

  lemma ScalarSigned(s: string, v: nat, j: Json)
    requires j.Scalar? && j.text != [] && (IsDigit(j.text[0]) || j.text[0] == '-') && Conforms(Signed, j)
    requires Stands(s, v, Render(j)) && Delimited(s, v + |Render(j)|)
    ensures ReadValue(s, v, Signed) == (Meaning(Signed, j), v + |Render(j)|)
  {
    ReadSigned(s, v, j.text);
  }

  lemma ScalarNull(s: string, v: nat, j: Json)
    requires WellFormed(j) && j.Scalar? && j.text[0] == 'n' && Conforms(Decimal, j) && Stands(s, v, Render(j))
    ensures ReadValue(s, v, Decimal) == (Meaning(Decimal, j), v + |Render(j)|)
  {
    FirstChar(s, v, j);
  }

  lemma StringFacts(kind: Kind, j: Json)
    requires WellFormed(j) && Conforms(kind, j) && j.Str?
    ensures j == Str(j.text) && Render(j) == Quoted(j.text) && Unquoted(j.text)
    ensures kind.Letter? ==> j.text != []
  {
  }

  lemma StringMeaning(kind: Kind, t: string)
    ensures kind.Letter? && t != [] ==> Meaning(kind, Str(t)) == map[kind.f := LetterValue(kind.f, t[0])]
    ensures kind.Id? ==> Meaning(kind, Str(t)) == map[OrderId := WordValue(t[..DigitsEnd(t, 0)], WORD64)]
  {
  }

  lemma ReadsString(s: string, v: nat, kind: Kind, j: Json)
    requires WellFormed(j) && Conforms(kind, j) && Stands(s, v, Render(j)) && Delimited(s, v + |Render(j)|)
    requires j.Str? && !kind.Header?
    ensures ReadValue(s, v, kind) == (Meaning(kind, j), v + |Render(j)|)
  {
    hide *;
    StringFacts(kind, j);
    StringMeaning(kind, j.text);
    match kind
    case Letter(f) => ReadLetter(s, v, f, j.text);
    case Decimal => ReadText(s, v, kind, j.text);
    case Time(_) => ReadText(s, v, kind, j.text);
    case Id => ReadId(s, v, j.text);
    case _ => ReadOther(s, v, kind, j);
  }

  // Reading a value assigns what the value means to the field, and ends where the value does.
  lemma {:induction false} ReadsValue(s: string, v: nat, kind: Kind, j: Json)
    requires WellFormed(j) && Conforms(kind, j) && Stands(s, v, Render(j)) && Delimited(s, v + |Render(j)|)
    ensures ReadValue(s, v, kind) == (Meaning(kind, j), v + |Render(j)|)
    decreases j, 1
  {
    hide *;
    if kind.Header? {
      ReadsHeader(s, v, j);
    } else if j.Str? {
      ReadsString(s, v, kind, j);
    } else {
      ReadsOther(s, v, kind, j);
    }
  }

  // ---------- Reading all the members ----------

  lemma KeyParts(s: string, p: nat, key: string, j: Json)
    requires Stands(s, p, Quoted(key) + (":" + Render(j)))
    ensures Stands(s, p, Quoted(key)) && Stands(s, p + |key| + 3, Render(j))
    ensures p + |key| + 2 < |s| && s[p + |key| + 2] == ':'
  {
    assert |Quoted(key)| == |key| + 2;
    hide Quoted, Render;
    StandsSplit(s, p, Quoted(key), ":" + Render(j));
    StandsSplit(s, p + |Quoted(key)|, ":", Render(j));
    assert s[p + |key| + 2..p + |key| + 3][0] == ':';
  }

  lemma ColonEnds(s: string, c: nat)
    requires c + 1 < |s| && s[c] == ':' && s[c + 1] != ':' && s[c + 1] != ' '
    ensures Colons(s, c) == c + 1
  {
  }

  // Where a member's key ends and its value begins.
  lemma KeyPlace(s: string, p: nat, key: string, j: Json)
    requires Unquoted(key) && WellFormed(j) && Stands(s, p, Quoted(key) + (":" + Render(j)))
    ensures var v := p + |key| + 3;
      && Stands(s, v, Render(j)) && v < |s| && s[p] == '"' && Separators(s, p) == p
      && TextAt(s, p + 1) == key && Colons(s, PastQuote(s, p + 1)) == v
  {
    KeyParts(s, p, key, j);
    assert |Quoted(key)| == |key| + 2;
    hide Render, Stands, WellFormed, Quoted, TextAt, PastQuote, Colons;
    FirstChar(s, p + |key| + 3, j);
    StringValue(s, p, key);
    ColonEnds(s, p + |key| + 2);
  }

  // One turn of the loop.
  lemma ReadStep(s: string, p: nat, e: Fields, inner: bool, key: string, v: nat, delta: Fields, next: nat)
    requires p < |s| && Separators(s, p) == p && s[p] == '"' && TextAt(s, p + 1) == key
    requires v <= |s| && Colons(s, PastQuote(s, p + 1)) == v && ReadValue(s, v, KindOf(key, inner)) == (delta, next)
    ensures ReadMembers(s, p, e, inner) == ReadMembers(s, next, e + delta, inner)
  {
    hide ReadValue, KindOf, Separators, Colons, PastQuote, TextAt;
  }

  // A key, a colon and a value are read together.
  lemma ReadMember(s: string, p: nat, key: string, j: Json, e: Fields, inner: bool, delta: Fields, next: nat)
    requires Unquoted(key) && WellFormed(j) && Stands(s, p, Quoted(key) + (":" + Render(j)))
    requires p + |key| + 3 <= |s| && ReadValue(s, p + |key| + 3, KindOf(key, inner)) == (delta, next)
    ensures ReadMembers(s, p, e, inner) == ReadMembers(s, next, e + delta, inner)
  {
    KeyPlace(s, p, key, j);
    ReadStep(s, p, e, inner, key, p + |key| + 3, delta, next);
    hide ReadValue, KindOf, Separators, Colons, PastQuote, TextAt, ReadMembers, Render, Stands, Quoted, WellFormed;
  }

  lemma MemberText(members: Members)
    requires members.Member?
    ensures var Member(key, value, rest) := members;
      var head, comma, tail := Quoted(key) + (":" + Render(value)), Comma(rest.Member?), RenderMembers(rest) + "}";
      && RenderMembers(members) + "}" == head + (comma + tail)
      && |RenderMembers(members)| == |head| + |comma| + |RenderMembers(rest)|
      && |head| == |key| + 3 + |Render(value)|
      && (comma + tail)[0] == (if rest.Member? then ',' else '}')
  {
    hide Render;
  }

  lemma MemberPlace(s: string, p: nat, members: Members)
    requires members.Member? && Stands(s, p, RenderMembers(members) + "}")
    ensures var Member(key, value, rest) := members;
      var next := p + |key| + 3 + |Render(value)|;
      && Stands(s, p, Quoted(key) + (":" + Render(value)))
      && next < |s| && Delimited(s, next) && s[next] == (if rest.Member? then ',' else '}')
      && Stands(s, next + |Comma(rest.Member?)|, RenderMembers(rest) + "}")
      && p + |RenderMembers(members)| == next + |Comma(rest.Member?)| + |RenderMembers(rest)|
  {
    var Member(key, value, rest) := members;
    var head, comma, tail := Quoted(key) + (":" + Render(value)), Comma(rest.Member?), RenderMembers(rest) + "}";
    hide *;
    MemberText(members);
    StandsSplit(s, p, head, comma + tail);
    StandsSplit(s, p + |head|, comma, tail);
    assert s[p + |head|..p + |head| + |comma + tail|][0] == (comma + tail)[0];
  }

  lemma PassComma(s: string, p: nat, e: Fields, inner: bool)
    requires p < |s| && s[p] == ','
    ensures ReadMembers(s, p, e, inner) == ReadMembers(s, p + 1, e, inner)
  {
  }

  lemma ReadsEnd(s: string, p: nat, e: Fields, inner: bool)
    requires Stands(s, p, RenderMembers(NoMembers) + "}")
    ensures ReadMembers(s, p, e, inner) == (e + map[], p + 1)
  {
    assert s[p..p + 1][0] == '}';
    assert e + map[] == e;
  }

  lemma CommaLength(more: bool)
    ensures |Comma(more)| == if more then 1 else 0
  {
  }

  // Past one member, and the comma if another follows.
  lemma AfterMember(s: string, p: nat, members: Members, e: Fields, inner: bool, delta: Fields, next: nat)
    requires members.Member? && MembersWellFormed(members) && Stands(s, p, RenderMembers(members) + "}")
    requires p + |members.key| + 3 <= |s|
    requires ReadValue(s, p + |members.key| + 3, KindOf(members.key, inner)) == (delta, next)
    requires next == p + |members.key| + 3 + |Render(members.value)|
    ensures ReadMembers(s, p, e, inner) == ReadMembers(s, next + |Comma(members.rest.Member?)|, e + delta, inner)
  {
    hide Stands, Render, RenderMembers, ReadMembers, ReadValue, KindOf, Quoted, Delimited, WellFormed, Unquoted, Comma;
    MemberPlace(s, p, members);
    ReadMember(s, p, members.key, members.value, e, inner, delta, next);
    CommaLength(members.rest.Member?);
    if members.rest.Member? {
      PassComma(s, next, e + delta, inner);
    }
  }

  // An object's members assign what they mean, one after another.
  lemma {:induction false} ReadsMembers(s: string, p: nat, members: Members, e: Fields, inner: bool)
    requires MembersWellFormed(members) && MembersConform(members, inner)
    requires Stands(s, p, RenderMembers(members) + "}")
    ensures ReadMembers(s, p, e, inner) == (e + MembersMeaning(members, inner), p + |RenderMembers(members)| + 1)
    decreases members
  {
    hide Stands, Render, RenderMembers, ReadMembers, ReadValue, Meaning, Delimited, Comma;
    match members
    case NoMembers =>
      ReadsEnd(s, p, e, inner);
      assert RenderMembers(NoMembers) == "" by { NoMembersEmpty(); }
    case Member(key, value, rest) =>
      MemberPlace(s, p, members);
      KeyPlace(s, p, key, value);
      ReadsValue(s, p + |key| + 3, KindOf(key, inner), value);
      var delta := Meaning(KindOf(key, inner), value);
      AfterMember(s, p, members, e, inner, delta, p + |key| + 3 + |Render(value)|);
      ReadsMembers(s, p + |key| + 3 + |Render(value)| + |Comma(rest.Member?)|, rest, e + delta, inner);
      assert e + delta + MembersMeaning(rest, inner) == e + (delta + MembersMeaning(rest, inner));
  }

  lemma NoMembersEmpty()
    ensures RenderMembers(NoMembers) == ""
  {
  }

  // ---------- A whole line ----------

  function LineText(members: Members): string {
    Render(Obj(members))
  }

  // The parser reads a well-formed line as its members mean, and stops right behind it.
  lemma ReadsLine(s: string, p: nat, members: Members)
    requires MembersWellFormed(members) && MembersConform(members, false) && Stands(s, p, LineText(members))
    ensures ParseLine(s, p) == Finished(MembersMeaning(members, false), p + |LineText(members)|)
  {
    HeaderPlace(s, p, members);
    ReadsMembers(s, p + 1, members, map[], false);
    assert map[] + MembersMeaning(members, false) == MembersMeaning(members, false);
    hide Render, RenderMembers, Stands, ReadMembers, MembersMeaning;
  }

  // ---------- The order of members ----------

  // The one kind of key that assigns a field.
  function KindFor(f: Field, inner: bool): Kind {
    if inner then
      match f
      case RType => Unsigned(RType, 0x100)
      case TsEvent => Time(TsEvent)
      case PublisherId => Unsigned(PublisherId, 0x1_0000)
      case InstrumentId => Unsigned(InstrumentId, WORD32)
      case _ => Ignored
    else
      match f
      case Side => Letter(Side)
      case Action => Letter(Action)
      case Size => Unsigned(Size, WORD32)
      case FlagBits => Unsigned(FlagBits, 0x100)
      case Sequence => Unsigned(Sequence, WORD32)
      case ChannelId => Unsigned(ChannelId, 0x1_0000)
      case Price => Decimal
      case TsRecv => Time(TsRecv)
      case OrderId => Id
      case TsInDelta => Signed
      case RType | TsEvent | PublisherId | InstrumentId => Header
      case Failed => Ignored
  }

  predicate Assigns(e: Fields, f: Field, v: int) {
    f in e && e[f] == v
  }

  // A key assigns no field but its own; a timestamp that throws always leaves the same mark.
  lemma MeaningFields(key: string, j: Json, inner: bool, f: Field)
    requires f in Meaning(KindOf(key, inner), j)
    ensures f == Failed || KindOf(key, inner) == KindFor(f, inner)
    ensures f == Failed ==> Meaning(KindOf(key, inner), j)[f] == 1
    decreases j, 1
  {
    KeyKinds(key, inner);
    FieldsOfKind(KindOf(key, inner), j, f);
    hide Meaning, KindOf;
  }

  // The kinds of key there are.
  lemma KeyKinds(key: string, inner: bool)
    ensures var k := KindOf(key, inner);
      match k
      case Letter(f) => k == KindFor(f, inner) && f != Failed
      case Unsigned(f, _) => k == KindFor(f, inner) && f != Failed
      case Time(f) => k == KindFor(f, inner) && f != Failed
      case Header | Signed | Decimal | Id => !inner
      case Ignored => true
  {
  }

  lemma FieldsOfKind(kind: Kind, j: Json, f: Field)
    requires f in Meaning(kind, j)
    ensures f == Failed && (kind.Time? || kind.Header?) ==> Meaning(kind, j)[f] == 1 || kind == Time(Failed)
    ensures match kind
      case Letter(g) => f == g
      case Unsigned(g, _) => f == g
      case Time(g) => f == g || f == Failed
      case Signed => f == TsInDelta
      case Decimal => f == Price
      case Id => f == OrderId
      case Header => f == Failed || f == RType || f == TsEvent || f == PublisherId || f == InstrumentId
      case Ignored => false
    decreases j, 0
  {
    if kind.Header? {
      HeaderFields(j.members, f);
    }
  }

  lemma {:induction false} HeaderFields(members: Members, f: Field)
    requires f in MembersMeaning(members, true)
    ensures f == Failed || f == RType || f == TsEvent || f == PublisherId || f == InstrumentId
    ensures f == Failed ==> MembersMeaning(members, true)[f] == 1
    decreases members, 2
  {
    if members.Member? {
      if f in Meaning(KindOf(members.key, true), members.value) {
        MeaningFields(members.key, members.value, true, f);
      }
      if f in MembersMeaning(members.rest, true) {
        HeaderFields(members.rest, f);
      }
    }
  }

  function Kinds(members: Members, inner: bool): set<Kind> {
    if members.NoMembers? then {} else Kinds(members.rest, inner) + {KindOf(members.key, inner)}
  }

  // No two members are read into the same field.
  predicate Distinct(members: Members, inner: bool) {
    members.Member? ==>
      && (KindOf(members.key, inner) == Ignored || KindOf(members.key, inner) !in Kinds(members.rest, inner))
      && Distinct(members.rest, inner)
  }

  // What the members that are read assign, in no order.
  function Assignments(members: Members, inner: bool): set<(Kind, Fields)> {
    if members.NoMembers? then {}
    else
      var kind := KindOf(members.key, inner);
      Assignments(members.rest, inner) + (if kind == Ignored then {} else {(kind, Meaning(kind, members.value))})
  }

  ghost predicate SomeAssigns(a: set<(Kind, Fields)>, f: Field, v: int) {
    exists d :: d in a && Assigns(d.1, f, v)
  }

  lemma {:induction false} AssignmentKinds(members: Members, inner: bool, d: (Kind, Fields), f: Field)
    requires d in Assignments(members, inner) && f in d.1
    ensures d.0 in Kinds(members, inner)
    ensures f == Failed || d.0 == KindFor(f, inner)
    ensures f == Failed ==> d.1[f] == 1
  {
    var here := (KindOf(members.key, inner), Meaning(KindOf(members.key, inner), members.value));
    if d == here {
      MeaningFields(members.key, members.value, inner, f);
    } else {
      AssignmentKinds(members.rest, inner, d, f);
    }
  }

  lemma {:induction false} MeaningFromSome(members: Members, inner: bool, f: Field)
    requires Distinct(members, inner) && f in MembersMeaning(members, inner)
    ensures SomeAssigns(Assignments(members, inner), f, MembersMeaning(members, inner)[f])
  {
    var kind := KindOf(members.key, inner);
    var here, after := Meaning(kind, members.value), MembersMeaning(members.rest, inner);
    if f in after {
      MeaningFromSome(members.rest, inner, f);
      var d :| d in Assignments(members.rest, inner) && Assigns(d.1, f, after[f]);
      assert d in Assignments(members, inner);
    } else {
      assert (kind, here) in Assignments(members, inner);
      assert Assigns((kind, here).1, f, here[f]);
    }
  }

  lemma {:induction false} SomeInMeaning(members: Members, inner: bool, d: (Kind, Fields), f: Field)
    requires Distinct(members, inner) && d in Assignments(members, inner) && f in d.1
    ensures Assigns(MembersMeaning(members, inner), f, d.1[f])
  {
    var after := MembersMeaning(members.rest, inner);
    if d in Assignments(members.rest, inner) {
      SomeInMeaning(members.rest, inner, d, f);
    } else if f in after {
      MeaningFromSome(members.rest, inner, f);
      var other :| other in Assignments(members.rest, inner) && Assigns(other.1, f, after[f]);
      AssignmentKinds(members.rest, inner, other, f);
      AssignmentKinds(members, inner, d, f);
    }
  }

  // Two objects whose distinct members assign the same things mean the same, whatever the
  // order of the members and whatever other members are passed over.
  lemma OrderDoesNotMatter(a: Members, b: Members, inner: bool)
    requires Distinct(a, inner) && Distinct(b, inner) && Assignments(a, inner) == Assignments(b, inner)
    ensures MembersMeaning(a, inner) == MembersMeaning(b, inner)
  {
    forall f | f in MembersMeaning(a, inner)
      ensures Assigns(MembersMeaning(b, inner), f, MembersMeaning(a, inner)[f])
    {
      MeaningFromSome(a, inner, f);
      var d :| d in Assignments(a, inner) && Assigns(d.1, f, MembersMeaning(a, inner)[f]);
      SomeInMeaning(b, inner, d, f);
    }
    forall f | f in MembersMeaning(b, inner)
      ensures f in MembersMeaning(a, inner)
    {
      MeaningFromSome(b, inner, f);
      var d :| d in Assignments(b, inner) && Assigns(d.1, f, MembersMeaning(b, inner)[f]);
      SomeInMeaning(a, inner, d, f);
    }
  }

  // Hence two well-formed lines with the same assignments give the same event, or the same error.
  lemma LinesAgree(s: string, p: nat, a: Members, s': string, p': nat, b: Members)
    requires MembersWellFormed(a) && MembersConform(a, false) && Distinct(a, false) && Stands(s, p, LineText(a))
    requires MembersWellFormed(b) && MembersConform(b, false) && Distinct(b, false) && Stands(s', p', LineText(b))
    requires Assignments(a, false) == Assignments(b, false)
    ensures ParseLine(s, p).Line? <==> ParseLine(s', p').Line?
    ensures ParseLine(s, p).Line? ==> ParseLine(s, p).fields == ParseLine(s', p').fields
    ensures !ParseLine(s, p).Line? ==> ParseLine(s, p) == ParseLine(s', p')
  {
    ReadsLine(s, p, a);
    ReadsLine(s', p', b);
    OrderDoesNotMatter(a, b, false);
    hide ParseLine, MembersMeaning, Assignments;
  }
}
