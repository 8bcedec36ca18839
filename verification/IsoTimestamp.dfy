// Parsing an ISO 8601 date-time (RFC 3339, section 5.6) to nanoseconds since 1970-01-01.
module IsoTimestamp {
  import opened Calendar

  datatype Result = Nanos(value: int) | BadTimestamp

  // p[i] - '0', also for characters that are not digits.
  function DigitAt(s: string, i: nat): int
    requires i < |s|
  {
    s[i] as int - '0' as int
  }

  predicate IsDigit(c: char) {
    '0' <= c <= '9'
  }

  function Two(s: string, i: nat): int
    requires i + 1 < |s|
  {
    DigitAt(s, i) * 10 + DigitAt(s, i + 1)
  }

  function Four(s: string, i: nat): int
    requires i + 3 < |s|
  {
    DigitAt(s, i) * 1000 + DigitAt(s, i + 1) * 100 + DigitAt(s, i + 2) * 10 + DigitAt(s, i + 3)
  }

  // The straight-line nine-digit fraction.
  function Fixed9(s: string, i: nat): int
    requires i + 9 <= |s|
  {
    DigitAt(s, i) * 100000000 + DigitAt(s, i + 1) * 10000000 + DigitAt(s, i + 2) * 1000000
    + DigitAt(s, i + 3) * 100000 + DigitAt(s, i + 4) * 10000 + DigitAt(s, i + 5) * 1000
    + DigitAt(s, i + 6) * 100 + DigitAt(s, i + 7) * 10 + DigitAt(s, i + 8)
  }

  function Pow10(k: nat): (p: nat)
    ensures p > 0
  {
    if k == 0 then 1 else 10 * Pow10(k - 1)
  }

  // The number a run of digits spells.
  function Value(s: string): int {
    if s == [] then 0 else Value(s[..|s| - 1]) * 10 + DigitAt(s, |s| - 1)
  }

  // How many of the first k characters from i on are digits, stopping at the first that is not.
  function DigitRun(s: string, i: nat, k: nat): (n: nat)
    ensures n <= k && (i <= |s| ==> i + n <= |s|)
    ensures forall j :: i <= j < i + n && j < |s| ==> IsDigit(s[j])
    decreases k
  {
    if k == 0 || i >= |s| || !IsDigit(s[i]) then 0 else 1 + DigitRun(s, i + 1, k - 1)
  }

  // What the fallback computes: up to nine digits, scaled to nanoseconds.
  function Scaled(s: string): int
    requires |s| >= 20
  {
    var n := DigitRun(s, 20, 9);
    Value(s[20..20 + n]) * Pow10(9 - n)
  }

  function Fraction(s: string): int {
    if |s| >= 29 && s[19] == '.' then Fixed9(s, 20)
    else if |s| > 19 && s[19] == '.' then Scaled(s)
    else 0
  }

  function Seconds(y: int, mo: int, dy: int, h: int, mi: int, sec: int): int {
    DaysFromCivil(y, mo, dy) * 86400 + h * 3600 + mi * 60 + sec
  }

  function Parsed(s: string): Result {
    if |s| < 19 then BadTimestamp
    else
      Nanos(Seconds(Four(s, 0), Two(s, 5), Two(s, 8), Two(s, 11), Two(s, 14), Two(s, 17)) * 1000000000 + Fraction(s))
  }

  // ---------- The parser ----------

  lemma {:induction false} RunGrows(s: string, i: nat, k: nat, n: nat)
    requires n < k && i + n <= |s|
    requires forall j :: i <= j < i + n ==> IsDigit(s[j])
    ensures i + n < |s| && IsDigit(s[i + n]) ==> DigitRun(s, i, k) > n
    ensures !(i + n < |s| && IsDigit(s[i + n])) ==> DigitRun(s, i, k) == n
    decreases k
  {
    if n > 0 {
      RunGrows(s, i + 1, k - 1, n - 1);
    }
  }

  lemma {:induction false} RunFull(s: string, i: nat, k: nat)
    requires i + k <= |s| && forall j :: i <= j < i + k ==> IsDigit(s[j])
    ensures DigitRun(s, i, k) == k
    decreases k
  {
    if k > 0 {
      RunFull(s, i + 1, k - 1);
    }
  }

  lemma ValueSnoc(s: string, i: nat, j: nat)
    requires i <= j < |s|
    ensures Value(s[i..j + 1]) == Value(s[i..j]) * 10 + DigitAt(s, j)
  {
    assert s[i..j + 1][..j - i] == s[i..j];
  }

  lemma RunEnds(s: string, n: nat)
    requires n <= 9 && 20 + n <= |s| && forall j :: 20 <= j < 20 + n ==> IsDigit(s[j])
    requires n < 9 ==> 20 + n == |s| || !IsDigit(s[20 + n])
    ensures DigitRun(s, 20, 9) == n
  {
    if n < 9 {
      RunGrows(s, 20, 9, n);
    } else {
      RunFull(s, 20, 9);
    }
  }

  lemma NoDigits(s: string)
    requires |s| >= 20
    ensures Value(s[20..20]) == 0
  {
  }

  // The loop for a fraction of fewer than nine characters.
  method Fallback(s: string) returns (nanos: int)
    requires |s| >= 20
    ensures nanos == Scaled(s)
  {
    hide Value, Pow10, DigitRun, DigitAt;
    nanos := 0;
    var digits, i := 0, 20;
    assert Value(s[20..20]) == 0 by { NoDigits(s); }
    while i < |s| && IsDigit(s[i]) && digits < 9
      invariant 0 <= digits <= 9 && i == 20 + digits <= |s|
      invariant forall j :: 20 <= j < i ==> IsDigit(s[j])
      invariant nanos == Value(s[20..i])
    {
      ValueSnoc(s, 20, i);
      nanos := nanos * 10 + DigitAt(s, i);
      digits, i := digits + 1, i + 1;
    }
    RunEnds(s, digits);
    nanos := nanos * Pow10(9 - digits);
  }

  method ParseIso8601Nanos(s: string) returns (r: Result)
    ensures r == Parsed(s)
  {
    if |s| < 19 {
      return BadTimestamp;
    }
    var sec := Seconds(Four(s, 0), Two(s, 5), Two(s, 8), Two(s, 11), Two(s, 14), Two(s, 17));
    var nanos := 0;
    if |s| >= 29 && s[19] == '.' {
      nanos := Fixed9(s, 20);
    } else if |s| > 19 && s[19] == '.' {
      nanos := Fallback(s);
    }
    r := Nanos(sec * 1000000000 + nanos);
  }

  // ---------- The two fractions ----------

  lemma Fixed9IsValue(s: string, i: nat)
    requires i + 9 <= |s|
    ensures Fixed9(s, i) == Value(s[i..i + 9])
  {
    assert Value(s[i..i]) == 0;
    ValueSnoc(s, i, i);
    ValueSnoc(s, i, i + 1);
    ValueSnoc(s, i, i + 2);
    ValueSnoc(s, i, i + 3);
    ValueSnoc(s, i, i + 4);
    ValueSnoc(s, i, i + 5);
    ValueSnoc(s, i, i + 6);
    ValueSnoc(s, i, i + 7);
    ValueSnoc(s, i, i + 8);
    hide Value;
  }

  lemma {:induction false} ValueSplit(a: string, b: string)
    ensures Value(a + b) == Value(a) * Pow10(|b|) + Value(b)
  {
    if b == [] {
      assert a + b == a;
    } else {
      var c := b[..|b| - 1];
      assert (a + b)[..|a + b| - 1] == a + c;
      ValueSplit(a, c);
      TenTimes(Value(a), Pow10(|c|));
    }
  }

  lemma TenTimes(v: int, p: nat)
    ensures v * p * 10 == v * (10 * p)
  {
  }

  // On any text that is long enough, the straight-line fraction is the careful one plus what
  // the characters behind the digits weigh; the two agree exactly when that is nothing.
  lemma FractionsExact(s: string)
    requires |s| >= 29
    ensures var rest := s[20 + DigitRun(s, 20, 9)..29];
      Fixed9(s, 20) == Scaled(s) + Value(rest) && (Fixed9(s, 20) == Scaled(s) <==> Value(rest) == 0)
  {
    hide Value, Pow10, DigitRun, Fixed9, DigitAt, IsDigit;
    var n := DigitRun(s, 20, 9);
    var digits, rest := s[20..20 + n], s[20 + n..29];
    assert digits + rest == s[20..29] && |rest| == 9 - n;
    assert Scaled(s) == Value(digits) * Pow10(9 - n);
    Fixed9IsValue(s, 20);
    ValueSplit(digits, rest);
  }

  // After eight digits they agree exactly when the ninth character is a digit too.
  lemma FractionsAgree(s: string)
    requires |s| >= 29 && forall j :: 20 <= j < 28 ==> IsDigit(s[j])
    ensures Fixed9(s, 20) == Scaled(s) <==> IsDigit(s[28])
    ensures !IsDigit(s[28]) ==> Fixed9(s, 20) == Scaled(s) + DigitAt(s, 28)
  {
    FractionsExact(s);
    hide Fixed9, Scaled;
    if IsDigit(s[28]) {
      RunFull(s, 20, 9);
    } else {
      RunGrows(s, 20, 9, 8);
      assert Value(s[28..28]) == 0;
      ValueSnoc(s, 28, 28);
    }
  }

  // An eight-digit fraction followed by Z comes out 42 nanoseconds late.
  lemma EightDigitsThenZ(s: string)
    requires |s| >= 29 && s[19] == '.' && s[28] == 'Z' && forall j :: 20 <= j < 28 ==> IsDigit(s[j])
    ensures Fraction(s) == Scaled(s) + 42
  {
    FractionsAgree(s);
  }

  // ---------- Round trip ----------

  datatype Civil = Civil(date: Date, hour: nat, minute: nat, second: nat, nanos: nat)

  predicate ValidCivil(c: Civil) {
    && ValidDate(c.date.year, c.date.month, c.date.day) && c.date.year <= 9999
    && c.hour < 24 && c.minute < 60 && c.second < 60 && c.nanos < 1000000000
  }

  // Nanoseconds since 1970-01-01 by counting days.
  function Instant(c: Civil): int
    requires ValidCivil(c)
  {
    ((DayNumber(c.date.year, c.date.month, c.date.day) - DayNumber(1970, 1, 1)) * 86400
     + c.hour * 3600 + c.minute * 60 + c.second) * 1000000000 + c.nanos
  }

  // n written with k digits.
  function Digits(n: nat, k: nat): (s: string)
    ensures |s| == k
  {
    if k == 0 then [] else Digits(n / 10, k - 1) + [('0' as int + n % 10) as char]
  }

  // Date and time up to the whole second.
  function Head(c: Civil): string
    requires ValidCivil(c)
  {
    Digits(c.date.year, 4) + "-" + Digits(c.date.month, 2) + "-" + Digits(c.date.day, 2) + "T"
    + Digits(c.hour, 2) + ":" + Digits(c.minute, 2) + ":" + Digits(c.second, 2)
  }

  // The nanoseconds can be told with k decimals.
  predicate Fits(c: Civil, k: nat) {
    k <= 9 && c.nanos % Pow10(9 - k) == 0
  }

  // A time with k decimals, without a dot if there are none, and a zone behind it.
  function Text(c: Civil, k: nat, zone: string): string
    requires ValidCivil(c) && Fits(c, k)
  {
    Head(c) + ((if k == 0 then "" else "." + Digits(c.nanos / Pow10(9 - k), k)) + zone)
  }

  // All nine decimals, in universal time.
  function Formatted(c: Civil): string
    requires ValidCivil(c)
  {
    Text(c, 9, "Z")
  }

  lemma {:induction false} DigitsValue(n: nat, k: nat)
    requires n < Pow10(k)
    ensures Value(Digits(n, k)) == n
  {
    if k > 0 {
      var t := Digits(n, k);
      DigitsValue(n / 10, k - 1);
      assert t[..k - 1] == Digits(n / 10, k - 1) && DigitAt(t, k - 1) == n % 10;
      assert Value(t) == Value(t[..k - 1]) * 10 + DigitAt(t, k - 1);
      hide Digits, Value, DigitAt;
    }
  }

  lemma TwoIsValue(s: string, i: nat)
    requires i + 2 <= |s|
    ensures Two(s, i) == Value(s[i..i + 2])
  {
    assert Value(s[i..i]) == 0;
    ValueSnoc(s, i, i);
    ValueSnoc(s, i, i + 1);
    hide Value;
  }

  lemma YearIsValue(s: string)
    requires 4 <= |s|
    ensures Four(s, 0) == Value(s[0..4])
  {
    assert Value(s[0..0]) == 0;
    ValueSnoc(s, 0, 0);
    ValueSnoc(s, 0, 1);
    ValueSnoc(s, 0, 2);
    ValueSnoc(s, 0, 3);
    hide Value;
  }

  // Where the fields of a written time lie.
  lemma Fields(c: Civil, tail: string)
    requires ValidCivil(c)
    ensures var s := Head(c) + tail;
      && |Head(c)| == 19
      && s[0..4] == Digits(c.date.year, 4) && s[5..7] == Digits(c.date.month, 2) && s[8..10] == Digits(c.date.day, 2)
      && s[11..13] == Digits(c.hour, 2) && s[14..16] == Digits(c.minute, 2) && s[17..19] == Digits(c.second, 2)
  {
    hide Digits;
  }

  lemma FieldValues(c: Civil, tail: string)
    requires ValidCivil(c)
    ensures var s := Head(c) + tail;
      && |Head(c)| == 19
      && Four(s, 0) == c.date.year
      && Two(s, 5) == c.date.month && Two(s, 8) == c.date.day
      && Two(s, 11) == c.hour && Two(s, 14) == c.minute && Two(s, 17) == c.second
  {
    var s := Head(c) + tail;
    Fields(c, tail);
    hide Head, ValidDate, Digits, Value, Two, Four, DigitAt;
    YearIsValue(s);
    TwoIsValue(s, 5);
    TwoIsValue(s, 8);
    TwoIsValue(s, 11);
    TwoIsValue(s, 14);
    TwoIsValue(s, 17);
    SmallDigits(c);
  }

  lemma InstantClosed(c: Civil)
    requires ValidCivil(c)
    ensures Instant(c) ==
      Seconds(c.date.year, c.date.month, c.date.day, c.hour, c.minute, c.second) * 1000000000 + c.nanos
  {
    CivilIsCount(c.date.year, c.date.month, c.date.day);
    hide DaysFromCivil, DayNumber, ValidDate;
  }

  // What the nine-character fraction makes of a zone that it runs into.
  function Spill(k: nat, zone: string): int
    requires k <= 9
  {
    if 0 < k && k + |zone| >= 9 then Value(zone[..9 - k]) else 0
  }

  // The zone does not look like more of the fraction.
  predicate Apart(k: nat, zone: string) {
    zone == [] || (if k == 0 then zone[0] != '.' else k < 9 ==> !IsDigit(zone[0]))
  }

  lemma {:induction false} DigitsAreDigits(n: nat, k: nat)
    ensures forall i :: 0 <= i < k ==> IsDigit(Digits(n, k)[i])
  {
    if k > 0 {
      DigitsAreDigits(n / 10, k - 1);
    }
  }

  lemma Scales(n: nat, p: nat)
    requires p > 0 && n % p == 0
    ensures n / p * p == n
  {
  }

  lemma {:induction false} Pow10Adds(i: nat, j: nat)
    ensures Pow10(i + j) == Pow10(i) * Pow10(j)
  {
    if i > 0 {
      Pow10Adds(i - 1, j);
      TenTimes(Pow10(j), Pow10(i - 1));
      assert Pow10(i - 1 + j) * 10 == Pow10(i + j);
    }
  }

  lemma Below(n: nat, p: nat, q: nat)
    requires p > 0 && n < p * q
    ensures n / p < q
  {
    assert n / p * p <= n;
  }

  // The decimals spell the nanoseconds in units of the last one.
  lemma DecimalsValue(c: Civil, k: nat)
    requires ValidCivil(c) && Fits(c, k)
    ensures Value(Digits(c.nanos / Pow10(9 - k), k)) * Pow10(9 - k) == c.nanos
  {
    Pow10Adds(9 - k, k);
    assert Pow10(9) == 1000000000;
    hide Pow10, Value, Digits;
    Below(c.nanos, Pow10(9 - k), Pow10(k));
    DigitsValue(c.nanos / Pow10(9 - k), k);
    Scales(c.nanos, Pow10(9 - k));
  }

  // A fraction of k digits in its place.
  lemma FractionOf(s: string, k: nat, digits: string, zone: string)
    requires 0 < k <= 9 && |digits| == k && |s| == 20 + k + |zone| && s[19] == '.'
    requires s[20..20 + k] == digits && s[20 + k..] == zone && Apart(k, zone)
    requires forall i :: 0 <= i < k ==> IsDigit(digits[i])
    ensures Fraction(s) == Value(digits) * Pow10(9 - k) + Spill(k, zone)
  {
    hide Value, Pow10, Fixed9, IsDigit, DigitAt;
    assert forall j :: 20 <= j < 20 + k ==> s[j] == digits[j - 20];
    if k < 9 && zone != [] {
      assert s[20 + k] == zone[0];
    }
    RunEnds(s, k);
    if |s| >= 29 {
      FractionsExact(s);
      assert s[20 + k..29] == zone[..9 - k];
    }
  }

  // What stands behind the whole seconds.
  lemma TextTail(c: Civil, k: nat, zone: string)
    requires ValidCivil(c) && Fits(c, k)
    ensures var s := Text(c, k, zone);
      |s| >= 19 && s[..19] == Head(c)
      && s[19..] == if k == 0 then zone else "." + Digits(c.nanos / Pow10(9 - k), k) + zone
  {
    Fields(c, []);
    hide Head, Digits, Pow10, ValidCivil;
    var tail := (if k == 0 then "" else "." + Digits(c.nanos / Pow10(9 - k), k)) + zone;
    assert Text(c, k, zone) == Head(c) + tail;
    hide Text;
    assert k == 0 ==> tail == zone;
  }

  lemma FractionWritten(c: Civil, k: nat, zone: string)
    requires ValidCivil(c) && Fits(c, k) && Apart(k, zone)
    ensures Fraction(Text(c, k, zone)) == c.nanos + Spill(k, zone)
  {
    var s, digits := Text(c, k, zone), Digits(c.nanos / Pow10(9 - k), k);
    TextTail(c, k, zone);
    DecimalsValue(c, k);
    hide Text, Head, Value, Digits, Fixed9, Scaled, ValidDate;
    if k == 0 {
      assert Pow10(9) == 1000000000;
      assert zone != [] ==> s[19] == zone[0];
    } else {
      hide Pow10, Fraction, Spill, Apart;
      DigitsAreDigits(c.nanos / Pow10(9 - k), k);
      FractionPlace(s, digits, zone);
      FractionOf(s, k, digits, zone);
    }
  }

  lemma FractionPlace(s: string, digits: string, zone: string)
    requires |s| >= 19 && s[19..] == "." + digits + zone
    ensures |s| == 20 + |digits| + |zone| && s[19] == '.'
    ensures s[20..20 + |digits|] == digits && s[20 + |digits|..] == zone
  {
    var t := s[19..];
    assert s[19] == t[0];
    assert t[1..1 + |digits|] == digits && t[1 + |digits|..] == zone;
  }

  // Parsing a time written with any number of decimals and any zone gives the instant that
  // counting days gives; when the fraction is short of nine digits and the text is long enough
  // for them, what stands in their place is weighed in.
  lemma AnyDecimals(c: Civil, k: nat, zone: string)
    requires ValidCivil(c) && Fits(c, k) && Apart(k, zone)
    ensures Parsed(Text(c, k, zone)) == Nanos(Instant(c) + Spill(k, zone))
  {
    hide Text, Head, ValidCivil, Seconds, Instant, Fraction, Spill, Two, Four;
    TextTail(c, k, zone);
    FieldValues(c, Text(c, k, zone)[19..]);
    assert Head(c) + Text(c, k, zone)[19..] == Text(c, k, zone);
    FractionWritten(c, k, zone);
    InstantClosed(c);
  }

  // With up to seven decimals and a Z, or with none at all, it is the instant itself.
  lemma FewDecimals(c: Civil, k: nat)
    requires ValidCivil(c) && Fits(c, k) && k <= 7
    ensures Parsed(Text(c, k, "Z")) == Nanos(Instant(c))
  {
    hide Text, Instant, Parsed, Value;
    AnyDecimals(c, k, "Z");
  }

  // With eight decimals and a Z it is 42 nanoseconds late.
  lemma EightDecimals(c: Civil)
    requires ValidCivil(c) && Fits(c, 8)
    ensures Parsed(Text(c, 8, "Z")) == Nanos(Instant(c) + 42)
  {
    hide Text, Instant, Parsed, Spill;
    AnyDecimals(c, 8, "Z");
    SpilledZ();
  }

  lemma SpilledZ()
    ensures Spill(8, "Z") == 42 && Spill(9, "Z") == 0
  {
    assert "Z"[..1] == "Z" && "Z"[..0] == [];
  }

  // Parsing what was formatted gives the instant that counting days gives.
  lemma RoundTrip(c: Civil)
    requires ValidCivil(c)
    ensures Fits(c, 9) && Parsed(Formatted(c)) == Nanos(Instant(c))
  {
    hide Text, Instant, Parsed, Spill;
    AnyDecimals(c, 9, "Z");
    SpilledZ();
  }

  lemma SmallDigits(c: Civil)
    requires ValidCivil(c)
    ensures Value(Digits(c.date.year, 4)) == c.date.year
    ensures Value(Digits(c.date.month, 2)) == c.date.month && Value(Digits(c.date.day, 2)) == c.date.day
    ensures Value(Digits(c.hour, 2)) == c.hour && Value(Digits(c.minute, 2)) == c.minute
    ensures Value(Digits(c.second, 2)) == c.second
  {
    assert Pow10(2) == 100 && Pow10(4) == 10000;
    hide Pow10;
    DigitsValue(c.date.year, 4);
    DigitsValue(c.date.month, 2);
    DigitsValue(c.date.day, 2);
    DigitsValue(c.hour, 2);
    DigitsValue(c.minute, 2);
    DigitsValue(c.second, 2);
    hide Value, Digits;
  }

  // ---------- Order and range ----------

  predicate Earlier(a: Civil, b: Civil) {
    EarlierDate(a.date, b.date) || (a.date == b.date && TimeOfDay(a) < TimeOfDay(b))
  }

  function TimeOfDay(c: Civil): nat {
    (c.hour * 3600 + c.minute * 60 + c.second) * 1000000000 + c.nanos
  }

  // A later civil time parses to a strictly greater number.
  lemma StrictlyMonotone(a: Civil, b: Civil)
    requires ValidCivil(a) && ValidCivil(b) && Earlier(a, b)
    ensures Instant(a) < Instant(b)
    ensures Parsed(Formatted(a)).value < Parsed(Formatted(b)).value
  {
    RoundTrip(a);
    RoundTrip(b);
    InstantSplit(a);
    InstantSplit(b);
    if EarlierDate(a.date, b.date) {
      DatesGrow(a.date, b.date);
    }
    hide Parsed, Formatted, DaysFromCivil, Instant, TimeOfDay, ValidCivil;
  }

  lemma InstantSplit(c: Civil)
    requires ValidCivil(c)
    ensures Instant(c) == DaysFromCivil(c.date.year, c.date.month, c.date.day) * 86400000000000 + TimeOfDay(c)
    ensures 0 <= TimeOfDay(c) < 86400000000000
  {
    CivilIsCount(c.date.year, c.date.month, c.date.day);
    hide DayNumber, DaysFromCivil, DaysInMonth;
  }

  const MIN_I64: int := -0x8000_0000_0000_0000
  const MAX_I64: int := 0x7FFF_FFFF_FFFF_FFFF

  // The first and the last instant of a signed 64-bit nanosecond count.
  const FIRST_CIVIL := Civil(Date(1677, 9, 21), 0, 12, 43, 145224192)
  const LAST_CIVIL := Civil(Date(2262, 4, 11), 23, 47, 16, 854775807)

  // The first whole second whose nanoseconds fit.
  const FIRST_SECOND := Civil(Date(1677, 9, 21), 0, 12, 44, 0)

  lemma Boundaries()
    ensures ValidCivil(FIRST_CIVIL) && ValidCivil(LAST_CIVIL) && ValidCivil(FIRST_SECOND)
    ensures Instant(FIRST_CIVIL) == MIN_I64 && Instant(LAST_CIVIL) == MAX_I64
    ensures Instant(FIRST_SECOND) == -9223372036 * 1000000000
  {
    Epoch();
    FirstDay();
    LastDay();
    hide DayNumber;
  }

  lemma FirstDay()
    ensures DayNumber(1677, 9, 21) == 612776
  {
    YearsClosed(1677);
    MonthsClosed(1677, 9);
    assert LeapDays(1676) == 407;
    hide DaysBeforeYear, DaysBeforeMonth, LeapDays;
  }

  lemma LastDay()
    ensures DayNumber(2262, 4, 11) == 826279
  {
    YearsClosed(2262);
    MonthsClosed(2262, 4);
    assert LeapDays(2261) == 548;
    hide DaysBeforeYear, DaysBeforeMonth, LeapDays;
  }

  lemma NotEarlier(a: Civil, b: Civil)
    requires ValidCivil(a) && ValidCivil(b) && !Earlier(a, b)
    ensures Instant(b) <= Instant(a)
  {
    InstantSplit(a);
    InstantSplit(b);
    if EarlierDate(b.date, a.date) {
      StrictlyMonotone(b, a);
    } else {
      assert a.date == b.date;
    }
    hide Parsed, Formatted, Instant, DaysFromCivil, ValidCivil;
  }

  lemma InOrder(a: Civil, b: Civil)
    requires ValidCivil(a) && ValidCivil(b)
    ensures Earlier(a, b) <==> Instant(a) < Instant(b)
  {
    hide Parsed, Formatted, Instant, ValidCivil;
    if Earlier(a, b) {
      StrictlyMonotone(a, b);
    } else {
      NotEarlier(a, b);
    }
  }

  // Exactly the civil times from the first to the last instant fit a signed 64-bit word.
  lemma FitsInt64(c: Civil)
    requires ValidCivil(c)
    ensures MIN_I64 <= Instant(c) <= MAX_I64 <==> !Earlier(c, FIRST_CIVIL) && !Earlier(LAST_CIVIL, c)
  {
    Boundaries();
    hide Instant, ValidCivil;
    InOrder(c, FIRST_CIVIL);
    InOrder(LAST_CIVIL, c);
  }

  lemma SecondsFit(seconds: int, nanos: nat)
    requires nanos < 1000000000
    ensures MIN_I64 <= seconds * 1000000000 <==> -9223372036 * 1000000000 <= seconds * 1000000000 + nanos
  {
  }

  // The parser multiplies the seconds out before it adds the fraction, so that it computes
  // inside 64 bits only from the first whole second on.
  lemma ComputesInInt64(c: Civil)
    requires ValidCivil(c)
    ensures var seconds := Seconds(c.date.year, c.date.month, c.date.day, c.hour, c.minute, c.second);
      (MIN_I64 <= seconds * 1000000000 && MIN_I64 <= seconds * 1000000000 + c.nanos <= MAX_I64)
      <==> (!Earlier(c, FIRST_SECOND) && !Earlier(LAST_CIVIL, c))
  {
    Boundaries();
    InstantClosed(c);
    SecondsFit(Seconds(c.date.year, c.date.month, c.date.day, c.hour, c.minute, c.second), c.nanos);
    hide Instant, Seconds, ValidCivil, Earlier;
    InOrder(c, FIRST_SECOND);
    InOrder(LAST_CIVIL, c);
  }
}
