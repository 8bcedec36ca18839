// Writing an event as a line and parsing the line gives back the event's fields.
module LineRoundTrip {
  import opened IsoTimestamp
  import opened JsonSkip
  import opened LineOrder
  import opened LineParser
  import opened Masks
  import MarketData

  // A time as it is written: with k decimals and a zone.
  datatype Stamp = Stamp(civil: Civil, k: nat, zone: string)

  predicate StampOk(t: Stamp) {
    ValidCivil(t.civil) && Fits(t.civil, t.k) && Apart(t.k, t.zone) && Unquoted(t.zone)
  }

  // What it comes to; see IsoTimestamp.AnyDecimals.
  function StampValue(t: Stamp): int
    requires StampOk(t)
  {
    Instant(t.civil) + Spill(t.k, t.zone)
  }

  // A price as it is written: null, or a whole number, then n in k decimals behind a dot if k is
  // not 0, then anything if all nine decimals are there.
  datatype Price = Null | Decimal(negative: bool, whole: nat, k: nat, n: nat, more: string)

  predicate PriceOk(p: Price) {
    p.Null? || (p.k <= 9 && p.n < Pow10(p.k) && Unquoted(p.more) && (p.k < 9 ==> p.more == []))
  }

  // In billionths.
  function Billionths(p: Price): int
    requires p.Decimal? && PriceOk(p)
  {
    var magnitude := p.whole * 1000000000 + p.n * Pow10(9 - p.k);
    if p.negative then -magnitude else magnitude
  }

  // The members of one line.
  datatype Record = Record(
    tsRecv: Stamp, tsEvent: Stamp, rtype: nat, publisherId: nat, instrumentId: nat,
    orderId: nat, price: Price, size: nat, side: char, action: char,
    flagBits: nat, sequence: nat, channelId: nat, tsInDelta: int, symbol: string)

  predicate Valid(r: Record) {
    && StampOk(r.tsRecv) && StampOk(r.tsEvent) && PriceOk(r.price)
    && r.side != '"' && r.action != '"' && Unquoted(r.symbol)
    && (r.tsInDelta < 0 ==> Magnitude(r.tsInDelta) % 0x1_0000_0000 != 0x8000_0000)
  }

  // A receive time of 0 stands for none.
  predicate Timed(r: Record)
    requires Valid(r)
  {
    StampValue(r.tsRecv) != 0
  }

  // ---------- Writing ----------

  function DigitChar(d: nat): (c: char)
    requires d < 10
    ensures IsDigit(c)
  {
    ('0' as int + d) as char
  }

  // A number without leading zeros.
  function Numeral(n: nat): (t: string)
    ensures t != [] && AllDigits(t)
  {
    (if n < 10 then [] else Numeral(n / 10)) + [DigitChar(n % 10)]
  }

  function Magnitude(v: int): nat {
    if v < 0 then -v else v
  }

  function Sign(v: int): string {
    if v < 0 then "-" else ""
  }

  function PriceText(p: Price): string
    requires p.Decimal? && PriceOk(p)
  {
    (if p.negative then "-" else "") + (Numeral(p.whole) + Fractional(p))
  }

  // The dot and what is behind it.
  function Fractional(p: Price): string
    requires p.Decimal? && PriceOk(p)
  {
    if p.k == 0 then "" else "." + (Digits(p.n, p.k) + p.more)
  }

  function PriceJson(p: Price): Json
    requires PriceOk(p)
  {
    if p.Null? then Scalar("null") else Str(PriceText(p))
  }

  function StampText(t: Stamp): string
    requires StampOk(t)
  {
    Text(t.civil, t.k, t.zone)
  }

  function Number(n: nat): Json {
    Scalar(Numeral(n))
  }

  function HeaderOf(r: Record): Members
    requires Valid(r)
  {
    Member("ts_event", Str(StampText(r.tsEvent)),
    Member("rtype", Number(r.rtype),
    Member("publisher_id", Number(r.publisherId),
    Member("instrument_id", Number(r.instrumentId), NoMembers))))
  }

  function Delay(r: Record): Json {
    Scalar(Sign(r.tsInDelta) + Numeral(Magnitude(r.tsInDelta)))
  }

  function Last(r: Record): Members {
    Member("sequence", Number(r.sequence),
    Member("channel_id", Number(r.channelId),
    Member("symbol", Str(r.symbol), NoMembers)))
  }

  function Tail(r: Record): Members {
    Member("flags", Number(r.flagBits),
    Member("ts_in_delta", Delay(r), Last(r)))
  }

  function Body(r: Record): Members
    requires Valid(r)
  {
    Member("price", PriceJson(r.price),
    Member("size", Number(r.size), Tail(r)))
  }

  function Middle(r: Record): Members
    requires Valid(r)
  {
    Member("action", Str([r.action]),
    Member("side", Str([r.side]), Body(r)))
  }

  // All but the receive time, with the given header.
  function Untimed(r: Record, header: Members): Members
    requires Valid(r)
  {
    Member("hd", Obj(header),
    Member("order_id", Str(Numeral(r.orderId)), Middle(r)))
  }

  // The line with the given header.
  function WrittenWith(r: Record, header: Members): Members
    requires Valid(r)
  {
    Member("ts_recv", Str(StampText(r.tsRecv)), Untimed(r, header))
  }

  function Written(r: Record): Members
    requires Valid(r)
  {
    WrittenWith(r, HeaderOf(r))
  }

  // The fields a line comes to.  An unsigned number is kept modulo the width of its field.
  function HeaderFields(r: Record): Fields
    requires Valid(r)
  {
    map[TsEvent := StampValue(r.tsEvent), RType := r.rtype % 0x100, PublisherId := r.publisherId % 0x1_0000,
        InstrumentId := r.instrumentId % 0x1_0000_0000]
  }

  function LastFields(r: Record): Fields {
    map[Sequence := r.sequence % 0x1_0000_0000, ChannelId := r.channelId % 0x1_0000]
  }

  // The magnitude wraps as a 32-bit word before its sign is put back.
  function Delta32(v: int): int {
    var m := Magnitude(v) % 0x1_0000_0000;
    var word := if m < 0x8000_0000 then m else m - 0x1_0000_0000;
    if v < 0 then -word else word
  }

  function TailFields(r: Record): Fields {
    map[FlagBits := r.flagBits % 0x100, TsInDelta := Delta32(r.tsInDelta)] + LastFields(r)
  }

  function PriceFields(p: Price): Fields
    requires PriceOk(p)
  {
    if p.Null? then map[] else map[Field.Price := Billionths(p)]
  }

  function BodyFields(r: Record): Fields
    requires Valid(r)
  {
    PriceFields(r.price) + (map[Size := r.size % 0x1_0000_0000] + TailFields(r))
  }

  function SideCode(letter: char): int {
    if letter == 'B' then 1 else if letter == 'A' || letter == 'S' then -1 else 0
  }

  function MiddleFields(r: Record): Fields
    requires Valid(r)
  {
    map[Action := r.action as int, Side := SideCode(r.side)] + BodyFields(r)
  }

  function UntimedFields(r: Record): Fields
    requires Valid(r)
  {
    HeaderFields(r) + (map[OrderId := r.orderId % 0x1_0000_0000_0000_0000] + MiddleFields(r))
  }

  function AllFields(r: Record): Fields
    requires Valid(r)
  {
    map[TsRecv := StampValue(r.tsRecv)] + UntimedFields(r)
  }

  // ---------- One written value ----------

  lemma {:induction false} NumeralValue(n: nat)
    ensures Value(Numeral(n)) == n
  {
    var t := Numeral(n);
    assert t[..|t| - 1] == if n < 10 then [] else Numeral(n / 10);
    if n >= 10 {
      NumeralValue(n / 10);
    }
  }

  lemma NumeralSplit(n: nat)
    ensures var t := Numeral(n);
      t != [] && DigitAt(t, |t| - 1) == n % 10 && t[..|t| - 1] == (if n < 10 then [] else Numeral(n / 10))
  {
  }

  lemma NextDigit(n: nat, word: nat)
    requires word > 0
    ensures (n / 10 % word * 10 + n % 10) % word == n % word
  {
    var q := n / 10;
    assert q == word * (q / word) + q % word;
    ModShift(q % word * 10 + n % 10, word, q / word * 10);
    assert word * (q / word * 10) == word * (q / word) * 10;
  }

  // Read digit by digit in a word, a number comes out modulo the word.
  lemma {:induction false} NumeralWord(n: nat, word: nat)
    requires word > 0
    ensures WordValue(Numeral(n), word) == n % word
  {
    hide *;
    NumeralSplit(n);
    NextDigit(n, word);
    WordValueLast(Numeral(n), word);
    if n >= 10 {
      NumeralWord(n / 10, word);
    }
  }

  lemma WordValueLast(t: string, word: nat)
    requires word > 0 && t != []
    ensures WordValue(t, word) == (WordValue(t[..|t| - 1], word) * 10 + DigitAt(t, |t| - 1)) % word
    ensures WordValue([], word) == 0
  {
  }

  lemma {:induction false} DigitsEndAll(t: string, i: nat)
    requires AllDigits(t) && i <= |t|
    ensures DigitsEnd(t, i) == |t|
    decreases |t| - i
  {
    if i < |t| {
      DigitsEndAll(t, i + 1);
    }
  }

  lemma {:induction false} DotAfter(w: string, rest: string)
    requires AllDigits(w)
    ensures DotIn(w + ("." + rest)) == |w|
  {
    var t := w + ("." + rest);
    if w != [] {
      assert t[0] == w[0] && t[1..] == w[1..] + ("." + rest);
      DotAfter(w[1..], rest);
    } else {
      assert t[0] == '.';
    }
  }

  lemma DigitsPlain(t: string)
    requires AllDigits(t)
    ensures Unquoted(t) && forall i :: 0 <= i < |t| ==> Plain(t[i]) && t[i] != '-' && t[i] != '.'
  {
  }

  lemma NumberMeaning(f: Field, width: nat, n: nat)
    requires width > 0 && WORD32 % width == 0
    ensures WellFormed(Number(n)) && Conforms(Unsigned(f, width), Number(n))
    ensures Meaning(Unsigned(f, width), Number(n)) == map[f := n % width]
  {
    NumeralWord(n, WORD32);
    Narrowed(n, width);
    DigitsPlain(Numeral(n));
    hide Numeral, WordValue, Plain;
  }

  lemma Narrowed(n: nat, width: nat)
    requires width > 0 && WORD32 % width == 0
    ensures n % WORD32 % width == n % width
  {
    var k := WORD32 / width;
    assert WORD32 == width * k;
    ModMod(n, width, k);
  }

  lemma SignedText(v: int)
    ensures var t := Sign(v) + Numeral(Magnitude(v));
      && t != [] && (forall i :: 0 <= i < |t| ==> Plain(t[i]))
      && (if v < 0 then t[0] == '-' && t[1..] == Numeral(Magnitude(v)) else t == Numeral(Magnitude(v)))
  {
    DigitsPlain(Numeral(Magnitude(v)));
    hide Numeral;
  }

  lemma SignedRead(t: string, d: string, v: int)
    requires WordValue(d, WORD32) == Magnitude(v) % 0x1_0000_0000
    requires t != [] && if v < 0 then t[0] == '-' && t[1..] == d else t[0] != '-' && t == d
    ensures SignedValue(t) == Delta32(v)
  {
    hide WordValue;
  }

  lemma SignedScalar(t: string, d: string)
    requires t != [] && d != [] && AllDigits(d) && (t == d || (t[0] == '-' && t[1..] == d))
    requires forall i :: 0 <= i < |t| ==> Plain(t[i])
    ensures WellFormed(Scalar(t)) && Conforms(Signed, Scalar(t))
    ensures Meaning(Signed, Scalar(t)) == map[TsInDelta := SignedValue(t)]
  {
    hide SignedValue, Plain;
  }

  lemma SignedMeaning(v: int)
    ensures var j := Scalar(Sign(v) + Numeral(Magnitude(v)));
      WellFormed(j) && Conforms(Signed, j) && Meaning(Signed, j) == map[TsInDelta := Delta32(v)]
  {
    var d, t := Numeral(Magnitude(v)), Sign(v) + Numeral(Magnitude(v));
    SignedText(v);
    NumeralWord(Magnitude(v), WORD32);
    DigitsPlain(d);
    hide Numeral, WordValue, Plain, Sign, SignedValue, WellFormed, Conforms, Meaning, Delta32;
    SignedRead(t, d, v);
    SignedScalar(t, d);
  }

  lemma IdMeaning(n: nat)
    ensures WellFormed(Str(Numeral(n)))
    ensures Meaning(Id, Str(Numeral(n))) == map[OrderId := n % 0x1_0000_0000_0000_0000]
  {
    NumeralWord(n, WORD64);
    DigitsEndAll(Numeral(n), 0);
    assert Numeral(n)[..|Numeral(n)|] == Numeral(n);
  }

  lemma TextMeaning(f: Field, t: string)
    requires Unquoted(t) && t != []
    ensures WellFormed(Str(t)) && Meaning(Time(f), Str(t)) == TimeFields(f, t)
    ensures Meaning(Kind.Decimal, Str(t)) == map[Field.Price := PriceValue(t)]
  {
    hide TimeFields, PriceValue;
  }

  lemma TimeMeaning(f: Field, t: Stamp)
    requires StampOk(t)
    ensures WellFormed(Str(StampText(t))) && Meaning(Time(f), Str(StampText(t))) == map[f := StampValue(t)]
  {
    hide Text, Parsed, Instant, ValidCivil, Unquoted, Meaning, WellFormed, Spill, Fits, Apart;
    AnyDecimals(t.civil, t.k, t.zone);
    StampUnquoted(t);
    TextMeaning(f, StampText(t));
  }

  lemma HeadUnquoted(c: Civil)
    requires ValidCivil(c)
    ensures Unquoted(Head(c)) && |Head(c)| == 19
  {
    DigitsAreDigits(c.date.year, 4);
    DigitsAreDigits(c.date.month, 2);
    DigitsAreDigits(c.date.day, 2);
    DigitsAreDigits(c.hour, 2);
    DigitsAreDigits(c.minute, 2);
    DigitsAreDigits(c.second, 2);
    hide Digits;
  }

  lemma StampUnquoted(t: Stamp)
    requires StampOk(t)
    ensures Unquoted(StampText(t)) && StampText(t) != []
  {
    HeadUnquoted(t.civil);
    DigitsAreDigits(t.civil.nanos / Pow10(9 - t.k), t.k);
    hide Head, Digits, Pow10, ValidCivil, Apart;
  }

  // ---------- Prices ----------

  lemma DigitsAll(n: nat, k: nat)
    ensures AllDigits(Digits(n, k))
  {
    DigitsAreDigits(n, k);
  }

  lemma PriceParts(p: Price)
    requires p.Decimal? && PriceOk(p)
    ensures var w, t := Numeral(p.whole), PriceText(p);
      && Unquoted(t) && t != [] && (t[0] == '-' <==> p.negative)
      && (if p.negative then t[1..] else t) == w + Fractional(p)
  {
    DigitsPlain(Numeral(p.whole));
    DigitsAll(p.n, p.k);
    DigitsPlain(Digits(p.n, p.k));
    hide Numeral, Digits, AllDigits, Plain, Pow10;
    assert Unquoted(Fractional(p));
    hide Fractional;
  }

  lemma {:induction false} DotAt(w: string, rest: string)
    requires AllDigits(w) && (rest == [] || rest[0] == '.')
    ensures DotIn(w + rest) == |w|
  {
    var t := w + rest;
    if w != [] {
      assert t[0] == w[0] && t[1..] == w[1..] + rest;
      DotAt(w[1..], rest);
    } else {
      assert t == rest;
    }
  }

  function Behind(rest: string): string {
    if rest == [] then [] else rest[1..]
  }

  // What the parser makes of a whole number, and of a dot and some characters behind it.
  lemma PriceOf(t: string, w: string, rest: string)
    requires (if t != [] && t[0] == '-' then t[1..] else t) == w + rest && AllDigits(w)
    requires rest == [] || rest[0] == '.'
    ensures var magnitude := Value(w) * 1000000000 + Decimals(Behind(rest));
      PriceValue(t) == if t != [] && t[0] == '-' then -magnitude else magnitude
  {
    hide Value, Decimals, AllDigits, DotIn, Behind;
    BodyParts(w, rest);
  }

  lemma BodyParts(w: string, rest: string)
    requires AllDigits(w) && (rest == [] || rest[0] == '.')
    ensures var body := w + rest;
      && DotIn(body) == |w| && body[..|w|] == w
      && (if |w| < |body| then body[|w| + 1..] else []) == Behind(rest)
  {
    hide DotIn;
    DotAt(w, rest);
  }

  lemma DecimalsStand(p: Price)
    requires p.Decimal? && PriceOk(p)
    ensures var rest := Fractional(p);
      && (rest == [] || rest[0] == '.')
      && Behind(rest) == Digits(p.n, p.k) + p.more
  {
    assert p.k == 0 ==> Digits(p.n, p.k) + p.more == [];
    hide Digits, Pow10;
  }

  // The first nine decimals count.
  lemma DecimalsMean(n: nat, k: nat, more: string)
    requires k <= 9 && n < Pow10(k) && (k < 9 ==> more == [])
    ensures Decimals(Digits(n, k) + more) == n * Pow10(9 - k)
  {
    hide Digits, Pow10, Value;
    var tail := Digits(n, k) + more;
    assert (if |tail| < 9 then tail else tail[..9]) == Digits(n, k);
    DigitsValue(n, k);
  }

  lemma PriceRead(p: Price)
    requires p.Decimal? && PriceOk(p)
    ensures PriceValue(PriceText(p)) == Billionths(p)
  {
    hide Value, Numeral, Digits, Pow10, PriceText, PriceValue, Unquoted, Fractional, Decimals, Behind;
    PriceParts(p);
    NumeralValue(p.whole);
    DecimalsStand(p);
    DecimalsMean(p.n, p.k, p.more);
    PriceOf(PriceText(p), Numeral(p.whole), Fractional(p));
  }

  // A price with any number of decimals, of either sign, is read exactly; what stands behind the
  // ninth decimal is not read, and null is no price.
  lemma PriceMeaning(p: Price)
    requires PriceOk(p)
    ensures WellFormed(PriceJson(p)) && Conforms(Kind.Decimal, PriceJson(p))
    ensures Meaning(Kind.Decimal, PriceJson(p)) == PriceFields(p)
  {
    if p.Decimal? {
      PriceParts(p);
      PriceRead(p);
      TextMeaning(Field.Price, PriceText(p));
      hide PriceText, PriceValue, Unquoted, Numeral, Digits, Fractional, Pow10, Billionths;
    }
  }

  // ---------- The written line ----------

  ghost predicate Reads(members: Members, inner: bool, e: Fields) {
    MembersWellFormed(members) && MembersConform(members, inner) && MembersMeaning(members, inner) == e
  }

  lemma AddMember(key: string, value: Json, rest: Members, inner: bool, delta: Fields, e: Fields)
    requires Unquoted(key) && WellFormed(value) && Conforms(KindOf(key, inner), value)
    requires Meaning(KindOf(key, inner), value) == delta && Reads(rest, inner, e)
    ensures Reads(Member(key, value, rest), inner, delta + e)
  {
    hide KindOf, Unquoted, WellFormed, Conforms, Meaning;
  }

  lemma NothingReads(inner: bool)
    ensures Reads(NoMembers, inner, map[])
  {
  }

  lemma AddNumber(key: string, f: Field, width: nat, n: nat, rest: Members, inner: bool, e: Fields)
    requires Unquoted(key) && KindOf(key, inner) == Unsigned(f, width) && width > 0 && WORD32 % width == 0
    requires Reads(rest, inner, e)
    ensures Reads(Member(key, Number(n), rest), inner, map[f := n % width] + e)
  {
    NumberMeaning(f, width, n);
    AddMember(key, Number(n), rest, inner, map[f := n % width], e);
  }

  lemma AddTime(key: string, f: Field, t: Stamp, rest: Members, inner: bool, e: Fields)
    requires Unquoted(key) && KindOf(key, inner) == Time(f) && StampOk(t) && Reads(rest, inner, e)
    ensures Reads(Member(key, Str(StampText(t)), rest), inner, map[f := StampValue(t)] + e)
  {
    TimeMeaning(f, t);
    hide StampText, StampValue, StampOk, Meaning, WellFormed, Reads;
    AddMember(key, Str(StampText(t)), rest, inner, map[f := StampValue(t)], e);
  }

  lemma AddPassedOver(key: string, text: string, rest: Members, inner: bool, e: Fields)
    requires Unquoted(key) && KindOf(key, inner) == Ignored && Unquoted(text) && Reads(rest, inner, e)
    ensures Reads(Member(key, Str(text), rest), inner, e)
  {
    AddMember(key, Str(text), rest, inner, map[], e);
    assert map[] + e == e;
  }

  lemma AddLetter(key: string, f: Field, c: char, rest: Members, inner: bool, e: Fields)
    requires Unquoted(key) && KindOf(key, inner) == Letter(f) && c != '"' && Reads(rest, inner, e)
    ensures Reads(Member(key, Str([c]), rest), inner, map[f := LetterValue(f, c)] + e)
  {
    AddMember(key, Str([c]), rest, inner, map[f := LetterValue(f, c)], e);
  }

  lemma HeaderReads(r: Record)
    requires Valid(r)
    ensures Reads(HeaderOf(r), true, HeaderFields(r))
  {
    hide Reads, Number, StampText, StampValue, StampOk;
    var m3 := Member("instrument_id", Number(r.instrumentId), NoMembers);
    var m2 := Member("publisher_id", Number(r.publisherId), m3);
    var m1 := Member("rtype", Number(r.rtype), m2);
    var e3 := map[InstrumentId := r.instrumentId % 0x1_0000_0000] + map[];
    var e2 := map[PublisherId := r.publisherId % 0x1_0000] + e3;
    var e1 := map[RType := r.rtype % 0x100] + e2;
    NothingReads(true);
    AddNumber("instrument_id", InstrumentId, WORD32, r.instrumentId, NoMembers, true, map[]);
    AddNumber("publisher_id", PublisherId, 0x1_0000, r.publisherId, m3, true, e3);
    AddNumber("rtype", RType, 0x100, r.rtype, m2, true, e2);
    AddTime("ts_event", TsEvent, r.tsEvent, m1, true, e1);
    assert map[TsEvent := StampValue(r.tsEvent)] + e1 == HeaderFields(r);
  }

  lemma TwoThen(f: Field, v: int, g: Field, w: int, e: Fields)
    requires f != g
    ensures map[f := v] + (map[g := w] + e) == map[f := v, g := w] + e
  {
  }

  lemma LastReads(r: Record)
    requires Valid(r)
    ensures Reads(Last(r), false, LastFields(r))
  {
    hide Reads, Number, StampOk;
    var symbol := Member("symbol", Str(r.symbol), NoMembers);
    var m, e := Member("channel_id", Number(r.channelId), symbol), map[ChannelId := r.channelId % 0x1_0000] + map[];
    NothingReads(false);
    AddPassedOver("symbol", r.symbol, NoMembers, false, map[]);
    AddNumber("channel_id", ChannelId, 0x1_0000, r.channelId, symbol, false, map[]);
    AddNumber("sequence", Sequence, WORD32, r.sequence, m, false, e);
    assert map[Sequence := r.sequence % 0x1_0000_0000] + e == LastFields(r);
  }

  lemma TailReads(r: Record)
    requires Valid(r)
    ensures Reads(Tail(r), false, TailFields(r))
  {
    hide Reads, Number, StampOk, Delay, Last, LastFields, Delta32;
    var delta := map[TsInDelta := Delta32(r.tsInDelta)];
    LastReads(r);
    DelayMeaning(r);
    AddMember("ts_in_delta", Delay(r), Last(r), false, delta, LastFields(r));
    AddNumber("flags", FlagBits, 0x100, r.flagBits, Tail(r).rest, false, delta + LastFields(r));
    TwoThen(FlagBits, r.flagBits % 0x100, TsInDelta, Delta32(r.tsInDelta), LastFields(r));
  }

  lemma DelayMeaning(r: Record)
    requires Valid(r)
    ensures WellFormed(Delay(r)) && Conforms(Signed, Delay(r))
    ensures Meaning(Signed, Delay(r)) == map[TsInDelta := Delta32(r.tsInDelta)]
  {
    SignedMeaning(r.tsInDelta);
  }

  lemma BodyReads(r: Record)
    requires Valid(r)
    ensures Reads(Body(r), false, BodyFields(r))
  {
    hide Reads, Number, StampOk, PriceOk, PriceJson, PriceFields, Tail, TailFields;
    TailReads(r);
    AddNumber("size", Size, WORD32, r.size, Tail(r), false, TailFields(r));
    PriceMeaning(r.price);
    AddMember("price", PriceJson(r.price), Body(r).rest, false, PriceFields(r.price),
      map[Size := r.size % 0x1_0000_0000] + TailFields(r));
  }

  lemma LetterRead(r: Record)
    ensures LetterValue(Side, r.side) == SideCode(r.side) && LetterValue(Action, r.action) == r.action as int
  {
  }

  lemma MiddleReads(r: Record)
    requires Valid(r)
    ensures Reads(Middle(r), false, MiddleFields(r))
  {
    hide Reads, StampOk, PriceOk, Body, BodyFields, LetterValue, SideCode;
    var m, e := Member("side", Str([r.side]), Body(r)), map[Side := SideCode(r.side)] + BodyFields(r);
    LetterRead(r);
    BodyReads(r);
    AddLetter("side", Side, r.side, Body(r), false, BodyFields(r));
    AddLetter("action", Action, r.action, m, false, e);
    TwoThen(Action, r.action as int, Side, SideCode(r.side), BodyFields(r));
  }

  lemma AddHeader(header: Members, rest: Members, delta: Fields, e: Fields)
    requires Reads(header, true, delta) && Reads(rest, false, e)
    ensures Reads(Member("hd", Obj(header), rest), false, delta + e)
  {
    HeaderMeaning(header);
    hide MembersWellFormed, MembersConform, MembersMeaning, WellFormed, Conforms, Meaning;
    AddMember("hd", Obj(header), rest, false, delta, e);
  }

  lemma HeaderMeaning(header: Members)
    ensures WellFormed(Obj(header)) <==> MembersWellFormed(header)
    ensures Conforms(Header, Obj(header)) <==> MembersConform(header, true)
    ensures Meaning(Header, Obj(header)) == MembersMeaning(header, true)
  {
    hide MembersWellFormed, MembersConform, MembersMeaning;
  }

  lemma AddId(n: nat, rest: Members, e: Fields)
    requires Reads(rest, false, e)
    ensures Reads(Member("order_id", Str(Numeral(n)), rest), false, map[OrderId := n % 0x1_0000_0000_0000_0000] + e)
  {
    hide Reads, Numeral;
    IdMeaning(n);
    AddMember("order_id", Str(Numeral(n)), rest, false, map[OrderId := n % 0x1_0000_0000_0000_0000], e);
  }

  lemma UntimedReads(r: Record, header: Members)
    requires Valid(r) && Reads(header, true, HeaderFields(r))
    ensures Reads(Untimed(r, header), false, UntimedFields(r))
  {
    hide Reads, StampOk, PriceOk, Numeral, Middle, MiddleFields, HeaderFields;
    MiddleReads(r);
    AddId(r.orderId, Middle(r), MiddleFields(r));
    AddHeader(header, Untimed(r, header).rest, HeaderFields(r),
      map[OrderId := r.orderId % 0x1_0000_0000_0000_0000] + MiddleFields(r));
  }

  lemma WrittenReads(r: Record, header: Members)
    requires Valid(r) && Reads(header, true, HeaderFields(r))
    ensures Reads(WrittenWith(r, header), false, AllFields(r))
  {
    hide Reads, StampOk, PriceOk, StampText, StampValue, Untimed, UntimedFields, HeaderFields;
    UntimedReads(r, header);
    AddTime("ts_recv", TsRecv, r.tsRecv, Untimed(r, header), false, UntimedFields(r));
  }

  lemma MiddleLacks(r: Record, f: Field)
    requires Valid(r) && (f == Failed || f == TsRecv)
    ensures f !in MiddleFields(r)
  {
    hide StampOk, PriceOk;
    assert f !in LastFields(r);
    hide LastFields;
    assert f !in TailFields(r);
    hide TailFields;
    assert f !in BodyFields(r);
    hide BodyFields, SideCode;
  }

  lemma UntimedLacks(r: Record)
    requires Valid(r)
    ensures Failed !in UntimedFields(r) && TsRecv !in UntimedFields(r)
  {
    MiddleLacks(r, Failed);
    MiddleLacks(r, TsRecv);
    hide MiddleFields, StampValue, StampOk, PriceOk;
    assert Failed !in HeaderFields(r) && TsRecv !in HeaderFields(r);
    hide HeaderFields;
  }

  // A whole line is parsed as what its members come to.
  lemma LineGives(members: Members, e: Fields)
    requires Reads(members, false, e)
    ensures ParseLine(LineText(members), 0) == Finished(e, |LineText(members)|)
  {
    hide LineText, ParseLine, MembersMeaning, MembersConform, MembersWellFormed;
    var s := LineText(members);
    assert s[0..0 + |s|] == s;
    ReadsLine(s, 0, members);
  }

  lemma EventGiven(r: Record, members: Members)
    requires Valid(r) && Timed(r) && Reads(members, false, AllFields(r))
    ensures ParseLine(LineText(members), 0) == Line(AllFields(r), |LineText(members)|)
  {
    hide LineText, ParseLine, UntimedFields, Reads, StampOk, PriceOk, StampValue;
    UntimedLacks(r);
    LineGives(members, AllFields(r));
  }

  // Parsing a written event gives back each of its fields, and stops right behind the line.
  lemma WrittenThenParsed(r: Record)
    requires Valid(r) && Timed(r)
    ensures ParseLine(LineText(Written(r)), 0) == Line(AllFields(r), |LineText(Written(r))|)
  {
    hide LineText, WrittenWith, ParseLine, AllFields, HeaderOf, HeaderFields, StampOk, PriceOk, Reads;
    HeaderReads(r);
    WrittenReads(r, HeaderOf(r));
    EventGiven(r, Written(r));
  }

  // ---------- Sides and actions ----------

  // The letters that stand for a side.
  predicate SideLetter(side: MarketData.Side, letter: char) {
    match side
    case Buy => letter == 'B'
    case Sell => letter == 'A' || letter == 'S'
    case NoSide => letter != 'A' && letter != 'B' && letter != 'S'
  }

  function SideNumber(side: MarketData.Side): int {
    match side
    case NoSide => 0
    case Buy => 1
    case Sell => -1
  }

  function ActionLetter(action: MarketData.Action): char {
    match action
    case Add => 'A'
    case Modify => 'M'
    case Cancel => 'C'
    case Clear => 'R'
    case Trade => 'T'
    case Fill => 'F'
    case NoAction => 'N'
  }

  // The numbers the source gives to sides and actions come back for the letters of the event's
  // side and action.
  lemma SideAndActionParsed(r: Record, side: MarketData.Side, action: MarketData.Action)
    requires Valid(r) && Timed(r) && SideLetter(side, r.side) && r.action == ActionLetter(action)
    ensures var line := ParseLine(LineText(Written(r)), 0);
      && line.Line? && Side in line.fields && line.fields[Side] == SideNumber(side)
      && Action in line.fields && line.fields[Action] == ActionLetter(action) as int
  {
    hide LineText, Written, ParseLine, StampOk, PriceOk, StampValue;
    WrittenThenParsed(r);
    BodyLacksLetters(r);
    hide BodyFields;
    assert AllFields(r) == map[TsRecv := StampValue(r.tsRecv)] + UntimedFields(r);
  }

  lemma BodyLacksLetters(r: Record)
    requires Valid(r)
    ensures Side !in BodyFields(r) && Action !in BodyFields(r)
  {
    hide StampOk, PriceOk;
    assert Side !in LastFields(r) && Action !in LastFields(r);
    hide LastFields;
    assert Side !in TailFields(r) && Action !in TailFields(r);
    hide TailFields;
  }

  // ---------- Lines that give no event ----------

  // Without a receive time, or with one of 0, a line gives no event.
  lemma MissingReceiveTime(r: Record)
    requires Valid(r)
    ensures ParseLine(LineText(Untimed(r, HeaderOf(r))), 0) == MissingTime
    ensures !Timed(r) ==> ParseLine(LineText(Written(r)), 0) == MissingTime
  {
    hide LineText, ParseLine, HeaderOf, Untimed, UntimedFields;
    hide HeaderFields, Reads, StampOk, PriceOk, StampValue, StampText;
    HeaderReads(r);
    UntimedReads(r, HeaderOf(r));
    UntimedLacks(r);
    LineGives(Untimed(r, HeaderOf(r)), UntimedFields(r));
    if !Timed(r) {
      WrittenReads(r, HeaderOf(r));
      LineGives(Written(r), AllFields(r));
    }
  }

  // A receive time of fewer than nineteen characters is an error.
  lemma ShortReceiveTime(r: Record, text: string)
    requires Valid(r) && Unquoted(text) && 0 < |text| < 19
    ensures ParseLine(LineText(Member("ts_recv", Str(text), Untimed(r, HeaderOf(r)))), 0) == BadTime
  {
    var rest, delta := Untimed(r, HeaderOf(r)), map[Failed := 1];
    assert KindOf("ts_recv", false) == Time(TsRecv) && Unquoted("ts_recv");
    ShortMeaning(TsRecv, text);
    hide Unquoted, WellFormed, Conforms, LineText, ParseLine, HeaderOf, Untimed;
    hide UntimedFields, HeaderFields, Reads, StampOk, PriceOk, Meaning, KindOf;
    HeaderReads(r);
    UntimedReads(r, HeaderOf(r));
    UntimedLacks(r);
    AddMember("ts_recv", Str(text), rest, false, delta, UntimedFields(r));
    LineGives(Member("ts_recv", Str(text), rest), delta + UntimedFields(r));
  }

  lemma ShortMeaning(f: Field, text: string)
    requires Unquoted(text) && 0 < |text| < 19
    ensures WellFormed(Str(text)) && Conforms(Time(f), Str(text))
    ensures Meaning(Time(f), Str(text)) == map[Failed := 1]
  {
  }

  // ---------- Any order ----------

  // The same for any line whose members assign the same.
  lemma SameAssignmentsParsed(r: Record, members: Members)
    requires Valid(r) && Timed(r) && MembersWellFormed(members) && MembersConform(members, false)
    requires Distinct(members, false) && Assignments(members, false) == Assignments(Written(r), false)
    ensures ParseLine(LineText(members), 0) == Line(AllFields(r), |LineText(members)|)
  {
    hide LineText, WrittenWith, ParseLine, AllFields, HeaderOf, HeaderFields, StampOk, PriceOk, StampValue;
    hide MembersMeaning, MembersConform, MembersWellFormed, Assignments, Distinct;
    HeaderReads(r);
    WrittenReads(r, HeaderOf(r));
    WrittenDistinct(r, HeaderOf(r));
    OrderDoesNotMatter(members, Written(r), false);
    EventGiven(r, members);
  }

  // The same with the members of the header, and then those of the line, written in any order,
  // and any members that are passed over among either.
  lemma AnyOrderParsed(r: Record, header: Members, inside: Members, members: Members, outside: Members)
    requires Valid(r) && Timed(r)
    requires Rearranged(HeaderOf(r), header, inside, true)
    requires Rearranged(WrittenWith(r, header), members, outside, false)
    ensures ParseLine(LineText(members), 0) == Line(AllFields(r), |LineText(members)|)
  {
    hide LineText, WrittenWith, ParseLine, AllFields, HeaderOf, HeaderFields, StampOk, PriceOk, StampValue;
    hide MembersMeaning, MembersConform, MembersWellFormed, Distinct, Rearranged;
    HeaderReads(r);
    HeaderDistinct(r);
    OrderIsFree(HeaderOf(r), header, inside, true);
    WrittenReads(r, header);
    WrittenDistinct(r, header);
    OrderIsFree(WrittenWith(r, header), members, outside, false);
    EventGiven(r, members);
  }

  lemma AddKind(key: string, value: Json, rest: Members, inner: bool)
    requires Distinct(rest, inner) && KindOf(key, inner) !in Kinds(rest, inner)
    ensures Distinct(Member(key, value, rest), inner)
    ensures Kinds(Member(key, value, rest), inner) == Kinds(rest, inner) + {KindOf(key, inner)}
  {
  }

  lemma HeaderDistinct(r: Record)
    requires Valid(r)
    ensures Distinct(HeaderOf(r), true)
  {
    hide StampText, StampOk, Number, Distinct, Kinds;
    EmptyDistinct(true);
    AddKind("instrument_id", Number(r.instrumentId), NoMembers, true);
    AddKind("publisher_id", Number(r.publisherId), HeaderOf(r).rest.rest.rest, true);
    AddKind("rtype", Number(r.rtype), HeaderOf(r).rest.rest, true);
    AddKind("ts_event", Str(StampText(r.tsEvent)), HeaderOf(r).rest, true);
  }

  lemma WrittenDistinct(r: Record, header: Members)
    requires Valid(r)
    ensures Distinct(WrittenWith(r, header), false)
  {
    hide StampText, StampOk, PriceOk, Numeral, PriceJson, Number, Delay, HeaderOf, Distinct, Kinds;
    EmptyDistinct(false);
    AddKind("symbol", Str(r.symbol), NoMembers, false);
    AddKind("channel_id", Number(r.channelId), Last(r).rest.rest, false);
    AddKind("sequence", Number(r.sequence), Last(r).rest, false);
    AddKind("ts_in_delta", Delay(r), Last(r), false);
    AddKind("flags", Number(r.flagBits), Tail(r).rest, false);
    AddKind("size", Number(r.size), Tail(r), false);
    AddKind("price", PriceJson(r.price), Body(r).rest, false);
    AddKind("side", Str([r.side]), Body(r), false);
    AddKind("action", Str([r.action]), Middle(r).rest, false);
    AddKind("order_id", Str(Numeral(r.orderId)), Middle(r), false);
    AddKind("hd", Obj(header), Untimed(r, header).rest, false);
    AddKind("ts_recv", Str(StampText(r.tsRecv)), Untimed(r, header), false);
  }

  lemma EmptyDistinct(inner: bool)
    ensures Distinct(NoMembers, inner) && Kinds(NoMembers, inner) == {}
  {
  }
}
