/** Civil dates and epoch seconds of time/wall_clock.c. */
module WallClock {
  datatype Option<T> = None | Some(value: T)

  datatype DateTime = DateTime(year: int, month: nat, day: nat, weekday: nat, hour: nat, minute: nat, second: nat)

  const EPOCH_MAX := 253402300799
  const DAY_SECONDS := 86400
  const ERA_DAYS := 146097
  const EPOCH_SHIFT := 719468

  predicate LeapYear(year: int) {
    year % 4 == 0 && (year % 100 != 0 || year % 400 == 0)
  }

  function DaysInMonth(year: int, month: nat): nat
    requires 1 <= month <= 12
  {
    if month == 2 && LeapYear(year) then 29
    else [31, 28, 31, 30, 31, 30, 31, 31, 30, 31, 30, 31][month - 1]
  }

  /** C's quotient, which truncates toward zero, by a positive divisor. */
  function Quotient(a: int, b: int): int
    requires b > 0
  {
    if a >= 0 then a / b else -(-a / b)
  }

  /** The source's two-branch era: the floor of year / 400 in truncating division. */
  function Era(value: int, span: int): int
    requires span > 0
  {
    if value >= 0 then Quotient(value, span) else Quotient(value - (span - 1), span)
  }

  /** Days from 1970-01-01, counting years from 1 March so that a leap day ends its year. */
  function DaysFromCivil(year: int, month: nat, day: nat): int {
    var adjustedYear := if month <= 2 then year - 1 else year;
    var era := Era(adjustedYear, 400);
    var yearOfEra := adjustedYear - era * 400;
    var adjustedMonth := if month > 2 then month - 3 else month + 9;
    var dayOfYear := (153 * adjustedMonth + 2) / 5 + day - 1;
    var dayOfEra := yearOfEra * 365 + yearOfEra / 4 - yearOfEra / 100 + dayOfYear;
    era * ERA_DAYS + dayOfEra - EPOCH_SHIFT
  }

  predicate ValidDate(year: int, month: nat, day: nat) {
    1 <= month <= 12 && 1 <= day <= DaysInMonth(year, month)
  }

  predicate Valid(t: DateTime) {
    && 1970 <= t.year <= 9999 && ValidDate(t.year, t.month, t.day)
    && t.hour <= 23 && t.minute <= 59 && t.second <= 59 && t.weekday <= 6
  }

  function ToEpoch(t: DateTime): Option<int> {
    if !Valid(t) then None
    else Some(DaysFromCivil(t.year, t.month, t.day) * DAY_SECONDS + t.hour * 3600 + t.minute * 60 + t.second)
  }

  function YearOfEra(dayOfEra: int): int {
    (dayOfEra - dayOfEra / 1460 + dayOfEra / 36524 - dayOfEra / 146096) / 365
  }

  /** The date of a day of a year that starts on 1 March. */
  function DateOfParts(era: int, yearOfEra: int, dayOfYear: int): (int, int, int) {
    var monthPrime := (5 * dayOfYear + 2) / 153;
    var day := dayOfYear - (153 * monthPrime + 2) / 5 + 1;
    var month := if monthPrime < 10 then monthPrime + 3 else monthPrime - 9;
    (yearOfEra + era * 400 + if month <= 2 then 1 else 0, month, day)
  }

  /** The date of a day count from 1 March 0000. */
  function CivilFromDays(days: int): (int, int, int) {
    var era := Era(days, ERA_DAYS);
    var dayOfEra := days - era * ERA_DAYS;
    var yearOfEra := YearOfEra(dayOfEra);
    DateOfParts(era, yearOfEra, dayOfEra - (365 * yearOfEra + yearOfEra / 4 - yearOfEra / 100))
  }

  function FromEpoch(seconds: int): Option<DateTime> {
    if seconds < 0 || seconds > EPOCH_MAX then None
    else FromDays(seconds / DAY_SECONDS, seconds % DAY_SECONDS)
  }

  /** The date of a day since 1970 with the time of a second of it. */
  function FromDays(days: int, daily: nat): Option<DateTime> {
    CivilFromDaysInverts(days + EPOCH_SHIFT);
    FromDate(CivilFromDays(days + EPOCH_SHIFT), (days + 4) % 7, daily)
  }

  function FromDate(date: (int, int, int), weekday: nat, daily: nat): Option<DateTime>
    requires date.1 >= 0 && date.2 >= 0
  {
    if date.0 < 1970 || date.0 > 9999 then None
    else Some(DateTime(date.0, date.1, date.2, weekday, daily / 3600, daily % 3600 / 60, daily % 60))
  }

  // ----- The calendar as counting -----

  function YearLength(year: int): nat {
    if LeapYear(year) then 366 else 365
  }

  /** Days from 1970 to the start of a year. */
  function DaysBeforeYear(year: int): nat
    requires year >= 1970
    decreases year
  {
    if year == 1970 then 0 else DaysBeforeYear(year - 1) + YearLength(year - 1)
  }

  function DaysBeforeMonth(year: int, month: nat): nat
    requires 1 <= month <= 12
  {
    if month == 1 then 0 else DaysBeforeMonth(year, month - 1) + DaysInMonth(year, month - 1)
  }

  /** The calendar day after a date. */
  function NextDay(year: int, month: nat, day: nat): (int, nat, nat)
    requires ValidDate(year, month, day)
  {
    if day < DaysInMonth(year, month) then (year, month, day + 1)
    else if month < 12 then (year, month + 1, 1)
    else (year + 1, 1, 1)
  }

  // ----- Arithmetic -----

  lemma EraIsFloor(value: int, span: int)
    requires span > 0
    ensures Era(value, span) == value / span
    ensures 0 <= value - Era(value, span) * span < span
  {
    if value < 0 {
      var q := (span - 1 - value) / span;
      var r := (span - 1 - value) % span;
      assert span - 1 - value == q * span + r;
      assert value == -q * span + (span - 1 - r);
      DivisionUnique(value, span, -q, span - 1 - r);
    }
  }

  lemma DivisionUnique(a: int, b: int, q: int, r: int)
    requires b > 0 && a == q * b + r && 0 <= r < b
    ensures a / b == q && a % b == r
  {
    var d := a / b - q;
    assert a == a / b * b + a % b;
    assert d * b == r - a % b;
    assert d >= 1 ==> d * b >= b;
    assert d <= -1 ==> d * b <= -b;
  }

  /** First day, within an era, of the year that starts on 1 March of its y-th year. */
  function YearStart(y: int): int {
    365 * y + y / 4 - y / 100
  }

  /** The year of an era, counted from 1 March, is leap when the February it ends with is. */
  predicate LeapAtEnd(y: int) {
    (y + 1) % 4 == 0 && ((y + 1) % 100 != 0 || (y + 1) % 400 == 0)
  }

  /** Day r of year y of four-year cycle q of century c; only a leap year has day 365. */
  ghost predicate Positions(c: int, q: int, y: int, r: int) {
    && 0 <= c <= 3 && 0 <= q <= 24 && 0 <= y <= 3 && 0 <= r <= 365
    && (r == 365 ==> y == 3 && (q < 24 || c == 3))
  }

  lemma CenturyCorrection(c: int, rest: int)
    requires 0 <= c <= 3 && 0 <= rest <= 36524 && (rest == 36524 ==> c == 3)
    ensures var d := 36524 * c + rest; d / 36524 - d / 146096 == c
  {
    var d := 36524 * c + rest;
    if rest < 36524 {
      DivisionUnique(d, 36524, c, rest);
      DivisionUnique(d, 146096, 0, d);
    }
  }

  /** The year formula on a day given by its position. */
  lemma YearFormula(c: int, q: int, y: int, r: int)
    requires Positions(c, q, y, r)
    ensures YearOfEra(36524 * c + 1461 * q + 365 * y + r) == 100 * c + 4 * q + y
  {
    var d := 36524 * c + 1461 * q + 365 * y + r;
    var n := 100 * c + 4 * q + y;
    var late := 24 * c + q + 365 * y + r;
    var e := if late >= 1460 then 1 else 0;
    CenturyCorrection(c, 1461 * q + 365 * y + r);
    DivisionUnique(d, 1460, 25 * c + q + e, late - 1460 * e);
    assert d - d / 1460 + d / 36524 - d / 146096 == 365 * n + (r - e);
    DivisionUnique(365 * n + (r - e), 365, n, r - e);
  }

  lemma YearStartFormula(c: int, q: int, y: int)
    requires 0 <= c <= 3 && 0 <= q <= 24 && 0 <= y <= 3
    ensures YearStart(100 * c + 4 * q + y) == 36524 * c + 1461 * q + 365 * y
    ensures y == 3 && (q < 24 || c == 3) <==> LeapAtEnd(100 * c + 4 * q + y)
  {
    var n := 100 * c + 4 * q + y;
    DivisionUnique(n, 4, 25 * c + q, y);
    DivisionUnique(n, 100, c, 4 * q + y);
    if y == 3 {
      DivisionUnique(n + 1, 4, 25 * c + q + 1, 0);
      if q < 24 {
        DivisionUnique(n + 1, 100, c, 4 * q + 4);
      } else {
        DivisionUnique(n + 1, 100, c + 1, 0);
      }
    } else {
      DivisionUnique(n + 1, 4, 25 * c + q, y + 1);
    }
  }

  /** The year formula finds the year a day of an era belongs to. */
  lemma YearOfEraBrackets(dayOfEra: int)
    requires 0 <= dayOfEra < ERA_DAYS
    ensures var y := YearOfEra(dayOfEra);
            && 0 <= y <= 399
            && 0 <= dayOfEra - YearStart(y) <= 365
            && (dayOfEra - YearStart(y) == 365 ==> LeapAtEnd(y))
  {
    var c := if dayOfEra / 36524 == 4 then 3 else dayOfEra / 36524;
    var inCentury := dayOfEra - 36524 * c;
    var q := inCentury / 1461;
    var inCycle := inCentury - 1461 * q;
    var y := if inCycle / 365 == 4 then 3 else inCycle / 365;
    YearFormula(c, q, y, inCycle - 365 * y);
    YearStartFormula(c, q, y);
  }

  // ----- Dates -----

  /** Months counted from March. */
  function MonthPrime(month: nat): nat
    requires 1 <= month <= 12
  {
    if month > 2 then month - 3 else month + 9
  }

  /** The first day of a month within a year that starts on 1 March. */
  function MonthStart(prime: int): int {
    (153 * prime + 2) / 5
  }

  /** The month table of the formula: each start follows the length of the month before. */
  lemma MonthTable(year: int, month: nat)
    requires 1 <= month <= 12
    ensures var prime := MonthPrime(month);
            && MonthStart(0) == 0 && MonthStart(prime) >= 0
            && (prime < 11 ==> MonthStart(prime + 1) == MonthStart(prime) + DaysInMonth(year, month))
            && (prime == 11 ==> MonthStart(prime) + DaysInMonth(year, month) == YearLength(year))
  {
  }

  /** The year that ends with the date's February, as era and year of era. */
  lemma CivilParts(year: int, month: nat, day: nat)
    requires 1 <= month <= 12
    ensures var marchYear := if month <= 2 then year - 1 else year;
            && 0 <= marchYear % 400 <= 399
            && DaysFromCivil(year, month, day)
               == marchYear / 400 * ERA_DAYS + YearStart(marchYear % 400) + MonthStart(MonthPrime(month)) + day - 1
                  - EPOCH_SHIFT
            && (LeapAtEnd(marchYear % 400) <==> LeapYear(marchYear + 1))
  {
    var marchYear := if month <= 2 then year - 1 else year;
    EraIsFloor(marchYear, 400);
    LeapShift(marchYear / 400, marchYear % 400);
  }

  lemma LeapShift(era: int, y: int)
    requires 0 <= y <= 399
    ensures LeapAtEnd(y) <==> LeapYear(400 * era + y + 1)
  {
    var n := 400 * era + y + 1;
    DivisionUnique(n, 4, 100 * era + (y + 1) / 4, (y + 1) % 4);
    DivisionUnique(n, 100, 4 * era + (y + 1) / 100, (y + 1) % 100);
    DivisionUnique(n, 400, era + (y + 1) / 400, (y + 1) % 400);
  }

  lemma QuotientSteps(y: int, n: int)
    requires n > 0
    ensures (y + 1) / n == y / n + if (y + 1) % n == 0 then 1 else 0
  {
    if y % n == n - 1 {
      DivisionUnique(y + 1, n, y / n + 1, 0);
    } else {
      DivisionUnique(y + 1, n, y / n, y % n + 1);
    }
  }

  /** Years of an era follow each other without a gap, and so do eras. */
  lemma YearsAbut(y: int)
    requires 0 <= y <= 399
    ensures YearStart(y) + (if LeapAtEnd(y) then 366 else 365) == if y == 399 then ERA_DAYS else YearStart(y + 1)
  {
    QuotientSteps(y, 4);
    QuotientSteps(y, 100);
    if (y + 1) % 100 == 0 {
      DivisionUnique(y + 1, 4, 25 * ((y + 1) / 100), 0);
    }
    if y < 399 {
      DivisionUnique(y + 1, 400, 0, y + 1);
    }
  }

  lemma YearPosition(y: int)
    requires 0 <= y <= 399
    ensures 0 <= y / 100 <= 3 && 0 <= y % 100 / 4 <= 24 && 0 <= y % 4 <= 3
    ensures y == 100 * (y / 100) + 4 * (y % 100 / 4) + y % 4
  {
    DivisionUnique(y, 4, 25 * (y / 100) + y % 100 / 4, y % 100 % 4);
  }

  lemma MonthEnds(year: int, month: nat)
    requires 1 <= month <= 12 && month != 2
    ensures var length := DaysInMonth(year, month);
            DaysFromCivil(year, month, length) + 1
            == if month < 12 then DaysFromCivil(year, month + 1, 1) else DaysFromCivil(year + 1, 1, 1)
  {
    MonthTable(year, month);
    CivilParts(year, month, DaysInMonth(year, month));
    if month < 12 {
      CivilParts(year, month + 1, 1);
    } else {
      CivilParts(year + 1, 1, 1);
    }
  }

  lemma FebruaryEnds(year: int)
    ensures DaysFromCivil(year, 2, DaysInMonth(year, 2)) + 1 == DaysFromCivil(year, 3, 1)
  {
    MonthTable(year, 2);
    YearsAbut((year - 1) % 400);
    NextEra(year - 1);
    CivilParts(year, 2, DaysInMonth(year, 2));
    CivilParts(year, 3, 1);
  }

  /** The next calendar day is one day later. */
  lemma NextDayIsOneMore(year: int, month: nat, day: nat)
    requires ValidDate(year, month, day)
    ensures var (y, m, d) := NextDay(year, month, day);
            ValidDate(y, m, d) && DaysFromCivil(y, m, d) == DaysFromCivil(year, month, day) + 1
  {
    if day < DaysInMonth(year, month) {
      DaysAreLinear(year, month, day);
      DaysAreLinear(year, month, day + 1);
    } else if month == 2 {
      FebruaryEnds(year);
    } else {
      MonthEnds(year, month);
    }
  }

  lemma NextEra(y: int)
    ensures if y % 400 == 399 then (y + 1) / 400 == y / 400 + 1 && (y + 1) % 400 == 0
            else (y + 1) / 400 == y / 400 && (y + 1) % 400 == y % 400 + 1
  {
    if y % 400 == 399 {
      DivisionUnique(y + 1, 400, y / 400 + 1, 0);
    } else {
      DivisionUnique(y + 1, 400, y / 400, y % 400 + 1);
    }
  }

  /** Days within a month count up one by one. */
  lemma DaysAreLinear(year: int, month: nat, day: nat)
    requires 1 <= month <= 12
    ensures DaysFromCivil(year, month, day) == DaysFromCivil(year, month, 1) + day - 1
  {
  }

  lemma NextMonth(year: int, month: nat)
    requires 1 <= month < 12
    ensures DaysFromCivil(year, month + 1, 1) == DaysFromCivil(year, month, 1) + DaysInMonth(year, month)
  {
    var length := DaysInMonth(year, month);
    DaysAreLinear(year, month, length);
    NextDayIsOneMore(year, month, length);
  }

  lemma {:induction false} MonthsAddUp(year: int, month: nat)
    requires 1 <= month <= 12
    ensures DaysFromCivil(year, month, 1) == DaysFromCivil(year, 1, 1) + DaysBeforeMonth(year, month)
  {
    if month > 1 {
      MonthsAddUp(year, month - 1);
      NextMonth(year, month - 1);
    }
  }

  lemma YearsAddUp(year: int)
    ensures DaysFromCivil(year + 1, 1, 1) == DaysFromCivil(year, 1, 1) + YearLength(year)
  {
    MonthsAddUp(year, 12);
    DaysAreLinear(year, 12, 31);
    NextDayIsOneMore(year, 12, 31);
    MonthsTotal(year);
  }

  lemma MonthsTotal(year: int)
    ensures DaysBeforeMonth(year, 12) + 31 == YearLength(year)
  {
    assert DaysBeforeMonth(year, 2) == DaysBeforeMonth(year, 1) + 31;
    assert DaysBeforeMonth(year, 3) == DaysBeforeMonth(year, 2) + DaysInMonth(year, 2);
    assert DaysBeforeMonth(year, 4) == DaysBeforeMonth(year, 3) + 31;
    assert DaysBeforeMonth(year, 5) == DaysBeforeMonth(year, 4) + 30;
    assert DaysBeforeMonth(year, 6) == DaysBeforeMonth(year, 5) + 31;
    assert DaysBeforeMonth(year, 7) == DaysBeforeMonth(year, 6) + 30;
    assert DaysBeforeMonth(year, 8) == DaysBeforeMonth(year, 7) + 31;
    assert DaysBeforeMonth(year, 9) == DaysBeforeMonth(year, 8) + 31;
    assert DaysBeforeMonth(year, 10) == DaysBeforeMonth(year, 9) + 30;
    assert DaysBeforeMonth(year, 11) == DaysBeforeMonth(year, 10) + 31;
  }

  /** The closed formula counts days: whole years since 1970, whole months, and days. */
  lemma {:induction false} DaysFromCivilCounts(year: int, month: nat, day: nat)
    requires year >= 1970 && 1 <= month <= 12
    ensures DaysFromCivil(year, month, day) == DaysBeforeYear(year) + DaysBeforeMonth(year, month) + day - 1
    decreases year
  {
    assert DaysFromCivil(year, 1, 1) == DaysBeforeYear(year) by {
      if year > 1970 {
        DaysFromCivilCounts(year - 1, 1, 1);
        YearsAddUp(year - 1);
      }
    }
    MonthsAddUp(year, month);
    DaysAreLinear(year, month, day);
  }

  // ----- Inverses -----

  /** The month formula finds month and day within a year that starts on 1 March. */
  lemma MonthBrackets(dayOfYear: int)
    requires 0 <= dayOfYear <= 365
    ensures var prime := (5 * dayOfYear + 2) / 153;
            0 <= prime <= 11 && MonthStart(prime) <= dayOfYear && (prime < 11 ==> dayOfYear < MonthStart(prime + 1))
  {
  }

  /** A day of an era by year and day of year; only a year with a leap day at its end has day 365. */
  ghost predicate DayOfEra(y: int, dayOfYear: int) {
    0 <= y <= 399 && 0 <= dayOfYear <= 365 && (dayOfYear == 365 ==> LeapAtEnd(y))
  }

  lemma EraOfDay(era: int, y: int, dayOfYear: int)
    requires DayOfEra(y, dayOfYear)
    ensures Era(era * ERA_DAYS + YearStart(y) + dayOfYear, ERA_DAYS) == era
  {
    YearsAbut(y);
    YearStartFits(y);
    EraIsFloor(era * ERA_DAYS + YearStart(y) + dayOfYear, ERA_DAYS);
    DivisionUnique(era * ERA_DAYS + YearStart(y) + dayOfYear, ERA_DAYS, era, YearStart(y) + dayOfYear);
  }

  lemma YearStartFits(y: int)
    requires 0 <= y <= 399
    ensures 0 <= YearStart(y) && YearStart(y) + (if LeapAtEnd(y) then 366 else 365) <= ERA_DAYS
  {
    YearsAbut(y);
    YearPosition(y);
    YearStartFormula(y / 100, y % 100 / 4, y % 4);
  }

  lemma YearOfDay(y: int, dayOfYear: int)
    requires DayOfEra(y, dayOfYear)
    ensures YearOfEra(YearStart(y) + dayOfYear) == y
  {
    YearPosition(y);
    YearStartFormula(y / 100, y % 100 / 4, y % 4);
    YearFormula(y / 100, y % 100 / 4, y % 4, dayOfYear);
  }

  /** The decoder on a day given by era, year and day of year. */
  lemma CivilFromParts(era: int, y: int, dayOfYear: int)
    requires DayOfEra(y, dayOfYear)
    ensures CivilFromDays(era * ERA_DAYS + YearStart(y) + dayOfYear) == DateOfParts(era, y, dayOfYear)
  {
    EraOfDay(era, y, dayOfYear);
    YearOfDay(y, dayOfYear);
  }

  /** Month and day decoded from a day of year form a date of the year that starts on 1 March. */
  lemma PartsAreDate(era: int, y: int, dayOfYear: int)
    requires DayOfEra(y, dayOfYear)
    ensures var (year, month, day) := DateOfParts(era, y, dayOfYear);
            && 1 <= month <= 12 && day >= 1 && ValidDate(year, month, day)
            && MonthStart(MonthPrime(month)) + day - 1 == dayOfYear
            && year == 400 * era + y + if month <= 2 then 1 else 0
  {
    MonthBrackets(dayOfYear);
    LeapShift(era, y);
    var (year, month, day) := DateOfParts(era, y, dayOfYear);
    MonthTable(year, month);
  }

  /** Encoding the date decoded from era, year and day of year. */
  lemma PartsEncode(era: int, y: int, dayOfYear: int)
    requires DayOfEra(y, dayOfYear)
    ensures var (year, month, day) := DateOfParts(era, y, dayOfYear);
            && month >= 0 && day >= 0 && ValidDate(year, month, day)
            && DaysFromCivil(year, month, day) == era * ERA_DAYS + YearStart(y) + dayOfYear - EPOCH_SHIFT
  {
    PartsAreDate(era, y, dayOfYear);
    DivisionUnique(400 * era + y, 400, era, y);
    var (year, month, day) := DateOfParts(era, y, dayOfYear);
    CivilParts(year, month, day);
  }

  lemma PartsOfDay(days: int) returns (era: int, y: int, dayOfYear: int)
    ensures DayOfEra(y, dayOfYear) && days == era * ERA_DAYS + YearStart(y) + dayOfYear
  {
    era := days / ERA_DAYS;
    y := YearOfEra(days % ERA_DAYS);
    YearOfEraBrackets(days % ERA_DAYS);
    dayOfYear := days % ERA_DAYS - YearStart(y);
  }

  /** The date of a day count is a date, and its day count is that count. */
  lemma CivilFromDaysInverts(days: int)
    ensures var (y, m, d) := CivilFromDays(days);
            m >= 0 && d >= 0 && ValidDate(y, m, d) && DaysFromCivil(y, m, d) == days - EPOCH_SHIFT
  {
    var era, y, dayOfYear := PartsOfDay(days);
    var date := DateOfParts(era, y, dayOfYear);
    assert CivilFromDays(days) == date by {
      CivilFromParts(era, y, dayOfYear);
    }
    PartsEncode(era, y, dayOfYear);
  }

  lemma MonthOfDay(year: int, month: nat, day: nat)
    requires ValidDate(year, month, day)
    ensures var dayOfYear := MonthStart(MonthPrime(month)) + day - 1;
            && 0 <= dayOfYear <= 365 && (5 * dayOfYear + 2) / 153 == MonthPrime(month)
            && (dayOfYear == 365 ==> month == 2 && LeapYear(year))
  {
  }

  /** Era, year and day of year of a date. */
  lemma PartsOfDate(year: int, month: nat, day: nat)
    requires ValidDate(year, month, day)
    ensures var marchYear := if month <= 2 then year - 1 else year;
            var dayOfYear := MonthStart(MonthPrime(month)) + day - 1;
            && DayOfEra(marchYear % 400, dayOfYear)
            && DateOfParts(marchYear / 400, marchYear % 400, dayOfYear) == (year, month, day)
  {
    MonthOfDay(year, month, day);
    CivilParts(year, month, day);
  }

  /** Decoding the day count of a date gives the date back. */
  lemma CivilFromDaysOf(year: int, month: nat, day: nat)
    requires ValidDate(year, month, day)
    ensures CivilFromDays(DaysFromCivil(year, month, day) + EPOCH_SHIFT) == (year, month, day)
  {
    var marchYear := if month <= 2 then year - 1 else year;
    var dayOfYear := MonthStart(MonthPrime(month)) + day - 1;
    PartsOfDate(year, month, day);
    CivilFromParts(marchYear / 400, marchYear % 400, dayOfYear);
    assert DaysFromCivil(year, month, day) + EPOCH_SHIFT
        == marchYear / 400 * ERA_DAYS + YearStart(marchYear % 400) + dayOfYear by {
      CivilParts(year, month, day);
    }
  }

  // ----- The whole conversions -----

  /** Later years have later days. */
  lemma {:induction false} YearsAscend(year: int, later: int)
    requires year <= later
    ensures DaysFromCivil(year, 1, 1) <= DaysFromCivil(later, 1, 1)
    decreases later - year
  {
    if year < later {
      YearsAddUp(later - 1);
      YearsAscend(year, later - 1);
    }
  }

  lemma DateWithinYear(year: int, month: nat, day: nat)
    requires ValidDate(year, month, day)
    ensures DaysFromCivil(year, 1, 1) <= DaysFromCivil(year, month, day) < DaysFromCivil(year + 1, 1, 1)
  {
    MonthsAddUp(year, month);
    DaysAreLinear(year, month, day);
    YearsAddUp(year);
    MonthsTotal(year);
    MonthsAscend(year, month);
  }

  lemma {:induction false} MonthsAscend(year: int, month: nat)
    requires 1 <= month <= 12
    ensures DaysBeforeMonth(year, month) + DaysInMonth(year, month) <= DaysBeforeMonth(year, 12) + 31
    decreases 12 - month
  {
    if month < 12 {
      MonthsAscend(year, month + 1);
    }
  }

  /** A date lies before a year exactly when its day lies before that year's first. */
  lemma DayBeforeYear(year: int, month: nat, day: nat, bound: int, first: int)
    requires ValidDate(year, month, day) && DaysFromCivil(bound, 1, 1) == first
    ensures year < bound <==> DaysFromCivil(year, month, day) < first
  {
    DateWithinYear(year, month, day);
    if year < bound {
      YearsAscend(year + 1, bound);
    } else {
      YearsAscend(bound, year);
    }
  }

  lemma EpochYears()
    ensures DaysFromCivil(1970, 1, 1) == 0 && DaysFromCivil(10000, 1, 1) == EPOCH_MAX / DAY_SECONDS + 1
  {
  }

  /** A date lies in 1970..9999 exactly when its day lies in the epoch range. */
  lemma YearRange(year: int, month: nat, day: nat)
    requires ValidDate(year, month, day)
    ensures 1970 <= year <= 9999 <==> 0 <= DaysFromCivil(year, month, day) <= EPOCH_MAX / DAY_SECONDS
  {
    EpochYears();
    DayBeforeYear(year, month, day, 1970, 0);
    DayBeforeYear(year, month, day, 10000, EPOCH_MAX / DAY_SECONDS + 1);
  }

  lemma ClockParts(hour: nat, minute: nat, second: nat)
    requires hour <= 23 && minute <= 59 && second <= 59
    ensures var daily := hour * 3600 + minute * 60 + second;
            && 0 <= daily < DAY_SECONDS
            && daily / 3600 == hour && daily % 3600 / 60 == minute && daily % 60 == second
  {
    var daily := hour * 3600 + minute * 60 + second;
    DivisionUnique(daily, 3600, hour, minute * 60 + second);
    DivisionUnique(minute * 60 + second, 60, minute, second);
    DivisionUnique(daily, 60, hour * 60 + minute, second);
  }

  lemma SecondsSplit(days: int, daily: int, seconds: int)
    requires 0 <= days <= EPOCH_MAX / DAY_SECONDS && 0 <= daily < DAY_SECONDS
    requires seconds == days * DAY_SECONDS + daily
    ensures 0 <= seconds <= EPOCH_MAX && FromEpoch(seconds) == FromDays(days, daily)
  {
    DivisionUnique(seconds, DAY_SECONDS, days, daily);
  }

  lemma EncodesTo(t: DateTime, days: int, daily: int)
    requires Valid(t) && DaysFromCivil(t.year, t.month, t.day) == days
    requires t.hour * 3600 + t.minute * 60 + t.second == daily
    ensures ToEpoch(t) == Some(days * DAY_SECONDS + daily)
  {
  }

  /** The date and the second of a date and time decode to them. */
  lemma DecodesBack(t: DateTime, date: (int, int, int), weekday: nat, daily: nat)
    requires 1970 <= t.year <= 9999 && t.hour <= 23 && t.minute <= 59 && t.second <= 59
    requires date == (t.year, t.month, t.day) && daily == t.hour * 3600 + t.minute * 60 + t.second
    ensures daily < DAY_SECONDS && FromDate(date, weekday, daily) == Some(t.(weekday := weekday))
  {
    ClockParts(t.hour, t.minute, t.second);
  }

  lemma DecodesAt(t: DateTime, days: int, daily: nat, seconds: int)
    requires 1970 <= t.year <= 9999 && t.hour <= 23 && t.minute <= 59 && t.second <= 59
    requires CivilFromDays(days + EPOCH_SHIFT) == (t.year, t.month, t.day) && 0 <= days <= EPOCH_MAX / DAY_SECONDS
    requires daily == t.hour * 3600 + t.minute * 60 + t.second && seconds == days * DAY_SECONDS + daily
    ensures 0 <= seconds <= EPOCH_MAX && FromEpoch(seconds) == Some(t.(weekday := (days + 4) % 7))
  {
    DecodesBack(t, CivilFromDays(days + EPOCH_SHIFT), (days + 4) % 7, daily);
    SecondsSplit(days, daily, seconds);
  }

  lemma EncodedDate(t: DateTime, days: int)
    requires Valid(t) && DaysFromCivil(t.year, t.month, t.day) == days
    ensures 0 <= days <= EPOCH_MAX / DAY_SECONDS
    ensures CivilFromDays(days + EPOCH_SHIFT) == (t.year, t.month, t.day)
  {
    YearRange(t.year, t.month, t.day);
    CivilFromDaysOf(t.year, t.month, t.day);
  }

  lemma EncodedDecodes(t: DateTime, days: int, daily: int, seconds: int)
    requires Valid(t) && DaysFromCivil(t.year, t.month, t.day) == days
    requires t.hour * 3600 + t.minute * 60 + t.second == daily && seconds == days * DAY_SECONDS + daily
    ensures 0 <= seconds <= EPOCH_MAX && FromEpoch(seconds) == Some(t.(weekday := (days + 4) % 7))
  {
    EncodedDate(t, days);
    DecodesAt(t, days, daily, seconds);
  }

  /** Every valid date and time survives the trip through epoch seconds; the weekday comes
      back as the day count says, 1970-01-01 being a Thursday. */
  lemma DateTimeRoundTrip(t: DateTime)
    requires Valid(t)
    ensures var s := ToEpoch(t);
            && s.Some? && 0 <= s.value <= EPOCH_MAX
            && FromEpoch(s.value) == Some(t.(weekday := (DaysFromCivil(t.year, t.month, t.day) + 4) % 7))
  {
    var daily := t.hour * 3600 + t.minute * 60 + t.second;
    EncodedDecodes(t, DaysFromCivil(t.year, t.month, t.day), daily, ToEpoch(t).value);
  }

  lemma DailyParts(daily: int)
    requires 0 <= daily < DAY_SECONDS
    ensures 0 <= daily / 3600 <= 23 && 0 <= daily % 3600 / 60 <= 59 && 0 <= daily % 60 <= 59
    ensures daily == daily / 3600 * 3600 + daily % 3600 / 60 * 60 + daily % 60
  {
    DivisionUnique(daily, 60, daily / 3600 * 60 + daily % 3600 / 60, daily % 3600 % 60);
  }

  /** The days of the epoch range are the days of 1970..9999. */
  lemma DecodedDate(days: int)
    requires 0 <= days <= EPOCH_MAX / DAY_SECONDS
    ensures var (y, m, d) := CivilFromDays(days + EPOCH_SHIFT);
            m >= 0 && d >= 0 && ValidDate(y, m, d) && 1970 <= y <= 9999 && DaysFromCivil(y, m, d) == days
  {
    CivilFromDaysInverts(days + EPOCH_SHIFT);
    var (y, m, d) := CivilFromDays(days + EPOCH_SHIFT);
    YearRange(y, m, d);
  }

  /** A day of the epoch range with a second decodes to a valid date that encodes back to them. */
  lemma DecodesValid(days: int, daily: nat)
    requires 0 <= days <= EPOCH_MAX / DAY_SECONDS && daily < DAY_SECONDS
    ensures var t := FromDays(days, daily);
            t.Some? && Valid(t.value) && ToEpoch(t.value) == Some(days * DAY_SECONDS + daily)
  {
    DecodedDate(days);
    DailyParts(daily);
    EncodesTo(FromDays(days, daily).value, days, daily);
  }

  /** Exactly the epoch seconds of 1970..9999 decode, to a valid date that encodes back to them. */
  lemma EpochRoundTrip(seconds: int)
    ensures FromEpoch(seconds).Some? <==> 0 <= seconds <= EPOCH_MAX
    ensures FromEpoch(seconds).Some? ==>
              Valid(FromEpoch(seconds).value) && ToEpoch(FromEpoch(seconds).value) == Some(seconds)
  {
    if 0 <= seconds <= EPOCH_MAX {
      DecodesValid(seconds / DAY_SECONDS, seconds % DAY_SECONDS);
    }
  }

  /** Different dates and times have different epoch seconds. */
  lemma EncodingIsInjective(t: DateTime, u: DateTime)
    requires Valid(t) && Valid(u) && ToEpoch(t) == ToEpoch(u)
    ensures t.(weekday := u.weekday) == u
  {
    DateTimeRoundTrip(t);
    DateTimeRoundTrip(u);
  }

  // ----- A clock that ticks -----

  /** The date and time one second later. */
  function Tick(t: DateTime): DateTime
    requires Valid(t)
  {
    if t.second < 59 then t.(second := t.second + 1)
    else if t.minute < 59 then t.(minute := t.minute + 1, second := 0)
    else if t.hour < 23 then t.(hour := t.hour + 1, minute := 0, second := 0)
    else
      var (y, m, d) := NextDay(t.year, t.month, t.day);
      DateTime(y, m, d, (t.weekday + 1) % 7, 0, 0, 0)
  }

  /** Seconds since midnight. */
  function Daily(t: DateTime): nat {
    t.hour * 3600 + t.minute * 60 + t.second
  }

  predicate LastSecond(t: DateTime) {
    t.hour == 23 && t.minute == 59 && t.second == 59
  }

  /** The date and its day count, with the weekday that goes with it. */
  predicate OnDay(t: DateTime, days: int)
    requires Valid(t)
  {
    DaysFromCivil(t.year, t.month, t.day) == days && t.weekday == (days + 4) % 7
  }

  lemma DateStays(t: DateTime)
    requires Valid(t) && !LastSecond(t)
    ensures var n := Tick(t);
            && Valid(n) && n == t.(hour := n.hour, minute := n.minute, second := n.second) && Daily(n) == Daily(t) + 1
  {
  }

  lemma StaysOnDay(t: DateTime, n: DateTime, days: int)
    requires Valid(t) && Valid(n) && n == t.(hour := n.hour, minute := n.minute, second := n.second) && OnDay(t, days)
    ensures OnDay(n, days)
  {
  }

  lemma NextWeekday(days: int)
    ensures ((days + 4) % 7 + 1) % 7 == (days + 1 + 4) % 7
  {
  }

  lemma NextDayIn(year: int, month: nat, day: nat, days: int)
    requires ValidDate(year, month, day) && DaysFromCivil(year, month, day) == days
    requires 0 <= days && days + 1 <= EPOCH_MAX / DAY_SECONDS
    ensures var (y, m, d) := NextDay(year, month, day);
            1970 <= y <= 9999 && ValidDate(y, m, d) && DaysFromCivil(y, m, d) == days + 1
  {
    NextDayIsOneMore(year, month, day);
    var (y, m, d) := NextDay(year, month, day);
    YearRange(y, m, d);
  }

  lemma DateTurns(t: DateTime, days: int)
    requires Valid(t) && LastSecond(t) && OnDay(t, days) && 0 <= days && days + 1 <= EPOCH_MAX / DAY_SECONDS
    ensures Valid(Tick(t)) && OnDay(Tick(t), days + 1) && Daily(Tick(t)) == 0
  {
    NextDayIn(t.year, t.month, t.day, days);
    NextWeekday(days);
  }

  lemma DecodesOn(t: DateTime, days: int, seconds: int)
    requires Valid(t) && OnDay(t, days) && seconds == days * DAY_SECONDS + Daily(t)
    ensures FromEpoch(seconds) == Some(t)
  {
    EncodedDecodes(t, days, Daily(t), seconds);
  }

  /** What a second of the epoch range decodes to. */
  lemma DecodedOn(seconds: int) returns (t: DateTime, days: int)
    requires 0 <= seconds <= EPOCH_MAX
    ensures FromEpoch(seconds) == Some(t) && Valid(t) && OnDay(t, days)
    ensures seconds == days * DAY_SECONDS + Daily(t) && 0 <= days <= EPOCH_MAX / DAY_SECONDS
  {
    EpochRoundTrip(seconds);
    t := FromEpoch(seconds).value;
    days := DaysFromCivil(t.year, t.month, t.day);
    DateTimeRoundTrip(t);
    EncodedDate(t, days);
  }

  lemma DayGoesOn(t: DateTime, days: int, seconds: int)
    requires Valid(t) && seconds == days * DAY_SECONDS + Daily(t) && seconds < EPOCH_MAX && LastSecond(t)
    ensures days + 1 <= EPOCH_MAX / DAY_SECONDS && seconds + 1 == (days + 1) * DAY_SECONDS
  {
  }

  lemma Ticked(t: DateTime, days: int, seconds: int) returns (now: int)
    requires Valid(t) && OnDay(t, days) && 0 <= days && seconds == days * DAY_SECONDS + Daily(t) && seconds < EPOCH_MAX
    ensures Valid(Tick(t)) && OnDay(Tick(t), now) && seconds + 1 == now * DAY_SECONDS + Daily(Tick(t))
  {
    now := days;
    if LastSecond(t) {
      DayGoesOn(t, days, seconds);
      DateTurns(t, days);
      now := days + 1;
    } else {
      DateStays(t);
      StaysOnDay(t, Tick(t), days);
    }
  }

  /** Each second of the epoch range a clock goes on as clocks do. */
  lemma ClockTicks(seconds: int) returns (t: DateTime)
    requires 0 <= seconds < EPOCH_MAX
    ensures FromEpoch(seconds) == Some(t) && Valid(t) && FromEpoch(seconds + 1) == Some(Tick(t))
  {
    var days: int;
    t, days := DecodedOn(seconds);
    var now := Ticked(t, days, seconds);
    DecodesOn(Tick(t), now, seconds + 1);
  }

  lemma FirstDay(t: DateTime)
    requires t.year == 1970 && t.month == 1 && t.day == 1 && t.weekday == 4 && t.hour == t.minute == t.second == 0
    ensures Valid(t) && OnDay(t, 0) && Daily(t) == 0
  {
  }

  lemma StartsOn(t: DateTime, days: int, seconds: int)
    requires Valid(t) && OnDay(t, days) && days == 0 && Daily(t) == 0 && seconds == 0
    ensures FromEpoch(seconds) == Some(t)
  {
    DecodesOn(t, days, seconds);
  }

  /** It starts on Thursday the first of January 1970 at midnight. */
  lemma ClockStarts(t: DateTime, seconds: int)
    requires t.year == 1970 && t.month == 1 && t.day == 1 && t.weekday == 4 && t.hour == t.minute == t.second == 0
    requires seconds == 0
    ensures FromEpoch(seconds) == Some(t)
  {
    FirstDay(t);
    StartsOn(t, 0, seconds);
  }
}
