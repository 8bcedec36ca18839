// The closed-form day count of the parser against counting days in the proleptic Gregorian calendar.
module Calendar {
  import opened Masks

  // ---------- Counting ----------

  predicate Leap(y: int) {
    y % 4 == 0 && (y % 100 != 0 || y % 400 == 0)
  }

  function DaysInMonth(y: int, m: int): (d: int)
    ensures 28 <= d <= 31
  {
    if m == 2 then (if Leap(y) then 29 else 28)
    else if m == 4 || m == 6 || m == 9 || m == 11 then 30
    else 31
  }

  predicate ValidDate(y: int, m: int, d: int) {
    0 <= y && 1 <= m <= 12 && 1 <= d <= DaysInMonth(y, m)
  }

  function DaysBeforeYear(y: nat): nat {
    if y == 0 then 0 else DaysBeforeYear(y - 1) + (if Leap(y - 1) then 366 else 365)
  }

  function DaysBeforeMonth(y: int, m: int): nat
    requires 1 <= m <= 12
    decreases m
  {
    if m == 1 then 0 else DaysBeforeMonth(y, m - 1) + DaysInMonth(y, m - 1)
  }

  // Days from 0000-01-01.
  function DayNumber(y: nat, m: int, d: int): int
    requires 1 <= m <= 12
  {
    DaysBeforeYear(y) + DaysBeforeMonth(y, m) + d - 1
  }

  // ---------- The closed form ----------

  // Division that drops the fraction, as in C++.
  function Quotient(a: int, b: int): int
    requires b > 0
  {
    if a >= 0 then a / b else -(-a / b)
  }

  // Days from the first of March to the first of a month.
  function MarchDays(mo: int): int {
    Quotient(153 * (mo + (if mo <= 2 then 9 else -3)) + 2, 5)
  }

  // Civil date to days since 1970-01-01, in years that begin in March.
  function DaysFromCivil(y: int, mo: int, dy: int): int {
    var z := y - (if mo <= 2 then 1 else 0);
    var era := Quotient(if z >= 0 then z else z - 399, 400);
    var yoe := z - era * 400;
    var doy := MarchDays(mo) + dy - 1;
    var doe := yoe * 365 + Quotient(yoe, 4) - Quotient(yoe, 100) + doy;
    era * 146097 + doe - 719468
  }

  // ---------- They agree ----------

  // Multiples of c up to n.
  lemma DivStep(n: int, c: int)
    requires c > 0
    ensures n / c == (n - 1) / c + (if n % c == 0 then 1 else 0)
  {
    assert n == c * (n / c) + n % c;
    if n % c == 0 {
      assert n - 1 == c * (n / c - 1) + (c - 1);
      DivUnique(n - 1, c, n / c - 1, c - 1);
    } else {
      DivUnique(n - 1, c, n / c, n % c - 1);
    }
  }

  lemma Multiples(n: int)
    ensures n % 100 == 0 ==> n % 4 == 0
    ensures n % 400 == 0 ==> n % 100 == 0
  {
    ModMod(n, 4, 25);
    ModMod(n, 100, 4);
  }

  function LeapDays(n: int): int {
    n / 4 - n / 100 + n / 400
  }

  lemma LeapStep(n: int)
    ensures LeapDays(n) == LeapDays(n - 1) + (if Leap(n) then 1 else 0)
  {
    DivStep(n, 4);
    DivStep(n, 100);
    DivStep(n, 400);
    Multiples(n);
  }

  lemma {:induction false} YearsClosed(y: nat)
    ensures DaysBeforeYear(y) == 365 * y + LeapDays(y - 1) + 1
  {
    if y > 0 {
      YearsClosed(y - 1);
      LeapStep(y - 1);
      hide LeapDays, Leap;
    }
  }

  // The 400-year cycle adds up to the plain count of leap days.
  lemma EraClosed(z: int)
    requires z >= -1
    ensures var era := Quotient(if z >= 0 then z else z - 399, 400);
      var yoe := z - era * 400;
      0 <= yoe < 400 && era * 146097 + yoe * 365 + yoe / 4 - yoe / 100 == 365 * z + LeapDays(z)
  {
    var era := Quotient(if z >= 0 then z else z - 399, 400);
    var yoe := z - era * 400;
    DivUnique(z, 400, era, yoe);
    DivUnique(z, 4, 100 * era + yoe / 4, yoe % 4);
    DivUnique(z, 100, 4 * era + yoe / 100, yoe % 100);
  }

  lemma MonthsClosed(y: int, m: int)
    requires 1 <= m <= 12
    ensures var leap := if Leap(y) then 1 else 0;
      DaysBeforeMonth(y, m) ==
        if m <= 2 then MarchDays(m) - 306 else MarchDays(m) + 59 + leap
  {
    assert DaysBeforeMonth(y, 1) == 0;
    assert DaysBeforeMonth(y, 2) == 31;
    var f := DaysInMonth(y, 2);
    assert DaysBeforeMonth(y, 3) == 31 + f;
    assert DaysBeforeMonth(y, 4) == 62 + f;
    assert DaysBeforeMonth(y, 5) == 92 + f;
    assert DaysBeforeMonth(y, 6) == 123 + f;
    assert DaysBeforeMonth(y, 7) == 153 + f;
    assert DaysBeforeMonth(y, 8) == 184 + f;
    assert DaysBeforeMonth(y, 9) == 215 + f;
    assert DaysBeforeMonth(y, 10) == 245 + f;
    assert DaysBeforeMonth(y, 11) == 276 + f;
    assert DaysBeforeMonth(y, 12) == 306 + f;
  }

  lemma Epoch()
    ensures DayNumber(1970, 1, 1) == 719528
  {
    YearsClosed(1970);
    assert DaysBeforeMonth(1970, 1) == 0;
    assert LeapDays(1969) == 477;
  }

  lemma MarchYear(y: nat, mo: int, dy: int)
    ensures var z := y - (if mo <= 2 then 1 else 0);
      DaysFromCivil(y, mo, dy) == 365 * z + LeapDays(z) + MarchDays(mo) + dy - 1 - 719468
  {
    var z := y - (if mo <= 2 then 1 else 0);
    EraClosed(z);
    hide LeapDays, MarchDays;
  }

  // For every date from year 0 on, the closed form counts the days from 1970-01-01.
  lemma CivilIsCount(y: nat, m: int, d: int)
    requires ValidDate(y, m, d)
    ensures DaysFromCivil(y, m, d) == DayNumber(y, m, d) - DayNumber(1970, 1, 1)
  {
    Epoch();
    YearsClosed(y);
    LeapStep(y);
    MonthsClosed(y, m);
    MarchYear(y, m, d);
    hide Leap, LeapDays, DaysBeforeYear, DaysBeforeMonth, MarchDays, DaysFromCivil;
  }

  // ---------- Consequences ----------

  datatype Date = Date(year: nat, month: int, day: int)

  function NextDay(a: Date): Date {
    if a.day < DaysInMonth(a.year, a.month) then Date(a.year, a.month, a.day + 1)
    else if a.month < 12 then Date(a.year, a.month + 1, 1)
    else Date(a.year + 1, 1, 1)
  }

  lemma YearLength(y: int)
    ensures DaysBeforeMonth(y, 12) + DaysInMonth(y, 12) == if Leap(y) then 366 else 365
  {
    MonthsClosed(y, 12);
  }

  lemma NextNumber(a: Date)
    requires ValidDate(a.year, a.month, a.day)
    ensures var b := NextDay(a);
      ValidDate(b.year, b.month, b.day) && DayNumber(b.year, b.month, b.day) == DayNumber(a.year, a.month, a.day) + 1
  {
    YearLength(a.year);
    hide Leap;
  }

  // The next day's number is the next number, across month ends, leap days and year ends.
  lemma NextDayLaw(a: Date)
    requires ValidDate(a.year, a.month, a.day)
    ensures var b := NextDay(a);
      ValidDate(b.year, b.month, b.day)
      && DaysFromCivil(b.year, b.month, b.day) == DaysFromCivil(a.year, a.month, a.day) + 1
  {
    var b := NextDay(a);
    NextNumber(a);
    CivilIsCount(a.year, a.month, a.day);
    CivilIsCount(b.year, b.month, b.day);
    hide *;
  }

  predicate EarlierDate(a: Date, b: Date) {
    a.year < b.year || (a.year == b.year && (a.month < b.month || (a.month == b.month && a.day < b.day)))
  }

  lemma {:induction false} YearsGrow(y: nat, y': nat)
    requires y < y'
    ensures DaysBeforeYear(y) + (if Leap(y) then 366 else 365) <= DaysBeforeYear(y')
  {
    if y + 1 < y' {
      YearsGrow(y, y' - 1);
    }
  }

  lemma {:induction false} MonthsGrow(y: int, m: int, m': int)
    requires 1 <= m < m' <= 12
    ensures DaysBeforeMonth(y, m) + DaysInMonth(y, m) <= DaysBeforeMonth(y, m')
    decreases m'
  {
    if m + 1 < m' {
      MonthsGrow(y, m, m' - 1);
    }
  }

  lemma DatesGrow(a: Date, b: Date)
    requires ValidDate(a.year, a.month, a.day) && ValidDate(b.year, b.month, b.day) && EarlierDate(a, b)
    ensures DaysFromCivil(a.year, a.month, a.day) < DaysFromCivil(b.year, b.month, b.day)
  {
    CivilIsCount(a.year, a.month, a.day);
    CivilIsCount(b.year, b.month, b.day);
    if a.year < b.year {
      YearsGrow(a.year, b.year);
      YearEnd(a.year, a.month);
    } else if a.month < b.month {
      MonthsGrow(a.year, a.month, b.month);
    }
  }

  lemma YearEnd(y: int, m: int)
    requires 1 <= m <= 12
    ensures DaysBeforeMonth(y, m) + DaysInMonth(y, m) <= (if Leap(y) then 366 else 365)
  {
    YearLength(y);
    if m < 12 {
      MonthsGrow(y, m, 12);
    }
  }
}
