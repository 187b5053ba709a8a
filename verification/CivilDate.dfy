/** Seconds since 1970-01-01 of a civil date, against counting days year by year and month by month. */
module CivilDate {
  import opened MachineInts
  import opened Wrappers

  const SECONDS_PER_DAY: int := 86400

  datatype Date = Date(year: int, month: int, day: int)

  /** The conversion by 400-year eras that start on March 1st. */
  function SecondsFromCivil(year: int, month: nat, day: nat): Option<int> {
    if !(1 <= month <= 12) || !(1 <= day <= 31) then None
    else
      var y := year - (if month <= 2 then 1 else 0);
      var era := TruncatedDiv(if y >= 0 then y else y - 399, 400);
      var yoe := y - era * 400;
      var doy := TruncatedDiv(153 * (month + (if month > 2 then -3 else 9)) + 2, 5) + day - 1;
      var doe := yoe * 365 + TruncatedDiv(yoe, 4) - TruncatedDiv(yoe, 100) + doy;
      Some((era * 146097 + doe - 719468) * SECONDS_PER_DAY)
  }

  // ----- The calendar, counted -----

  predicate IsLeap(year: int) {
    year % 4 == 0 && (year % 100 != 0 || year % 400 == 0)
  }

  function DaysInYear(year: int): int {
    if IsLeap(year) then 366 else 365
  }

  function DaysInMonth(year: int, month: int): int
    requires 1 <= month <= 12
  {
    if month == 2 then (if IsLeap(year) then 29 else 28)
    else if month == 4 || month == 6 || month == 9 || month == 11 then 30
    else 31
  }

  /** Days from 1970-01-01 to January 1st of a year, before or after. */
  function DaysBeforeYear(year: int): int
    decreases if year >= 1970 then year - 1970 else 1970 - year
  {
    if year == 1970 then 0
    else if year > 1970 then DaysBeforeYear(year - 1) + DaysInYear(year - 1)
    else DaysBeforeYear(year + 1) - DaysInYear(year)
  }

  function DaysBeforeMonth(year: int, month: int): int
    requires 1 <= month <= 12
  {
    if month == 1 then 0 else DaysBeforeMonth(year, month - 1) + DaysInMonth(year, month - 1)
  }

  /** Days from 1970-01-01; a day past the end of its month counts on into the next. */
  function DayNumber(date: Date): int
    requires 1 <= date.month <= 12
  {
    DaysBeforeYear(date.year) + DaysBeforeMonth(date.year, date.month) + date.day - 1
  }

  predicate IsValid(date: Date) {
    1 <= date.month <= 12 && 1 <= date.day <= DaysInMonth(date.year, date.month)
  }

  // ----- The era arithmetic counts days -----

  /** Leap days before a year, in closed form. */
  function LeapDays(year: int): int {
    year / 4 - year / 100 + year / 400
  }

  lemma QuotientSteps(year: int, period: int)
    requires period > 1
    ensures year / period - (year - 1) / period == if year % period == 0 then 1 else 0
  {
    var q, r := year / period, year % period;
    assert year == q * period + r;
    if r == 0 {
      assert year - 1 == (q - 1) * period + (period - 1);
      QuotientIs(year - 1, period, q - 1, period - 1);
    } else {
      assert year - 1 == q * period + (r - 1);
      QuotientIs(year - 1, period, q, r - 1);
    }
  }

  lemma MultipleOfMultiple(year: int, period: int, times: int)
    requires period > 0 && times > 0 && year % (period * times) == 0
    ensures year % period == 0
  {
    var q := year / (period * times);
    assert year == q * (period * times) == (q * times) * period;
    QuotientIs(year, period, q * times, 0);
  }

  lemma LeapDaysStep(year: int)
    ensures LeapDays(year) - LeapDays(year - 1) == if IsLeap(year) then 1 else 0
  {
    if year % 100 == 0 {
      MultipleOfMultiple(year, 4, 25);
    }
    if year % 400 == 0 {
      MultipleOfMultiple(year, 100, 4);
    }
    QuotientSteps(year, 4);
    QuotientSteps(year, 100);
    QuotientSteps(year, 400);
  }

  lemma {:induction false} YearsInClosedForm(year: int)
    ensures DaysBeforeYear(year) == 365 * (year - 1970) + LeapDays(year - 1) - 477
    decreases if year >= 1970 then year - 1970 else 1970 - year
  {
    if year > 1970 {
      YearsInClosedForm(year - 1);
      LeapDaysStep(year - 1);
    } else if year < 1970 {
      YearsInClosedForm(year + 1);
      LeapDaysStep(year);
    }
  }

  lemma EraIsFloored(y: int)
    ensures TruncatedDiv(if y >= 0 then y else y - 399, 400) == y / 400
  {
    if y < 0 {
      var q, r := y / 400, y % 400;
      assert 399 - y == (-q) * 400 + (399 - r);
      QuotientIs(399 - y, 400, -q, 399 - r);
    }
  }

  /** Within an era the leap days are those of the 400-year cycle. */
  lemma EraSplitsLeapDays(y: int)
    ensures var era, yoe := y / 400, y % 400;
            LeapDays(y) == era * 97 + yoe / 4 - yoe / 100
  {
    var era, yoe := y / 400, y % 400;
    QuotientIs(y, 4, era * 100 + yoe / 4, yoe % 4);
    QuotientIs(y, 100, era * 4 + yoe / 100, yoe % 100);
  }

  /** Days from March 1st to the start of a month, from the slope 153/5. */
  lemma MonthsFromMarch(year: int, month: int)
    requires 1 <= month <= 12
    ensures var slope := (153 * (month + (if month > 2 then -3 else 9)) + 2) / 5;
            DaysBeforeMonth(year, month) ==
              if month <= 2 then slope - 306 else slope + 59 + (if IsLeap(year) then 1 else 0)
  {
    assert DaysBeforeMonth(year, 1) == 0;
    assert DaysBeforeMonth(year, 2) == 31;
    assert DaysBeforeMonth(year, 3) == 59 + (if IsLeap(year) then 1 else 0);
    if month > 3 {
      assert DaysBeforeMonth(year, 4) == DaysBeforeMonth(year, 3) + 31;
      assert DaysBeforeMonth(year, 5) == DaysBeforeMonth(year, 3) + 61;
      assert DaysBeforeMonth(year, 6) == DaysBeforeMonth(year, 3) + 92;
      assert DaysBeforeMonth(year, 7) == DaysBeforeMonth(year, 3) + 122;
      assert DaysBeforeMonth(year, 8) == DaysBeforeMonth(year, 3) + 153;
      assert DaysBeforeMonth(year, 9) == DaysBeforeMonth(year, 3) + 184;
      assert DaysBeforeMonth(year, 10) == DaysBeforeMonth(year, 3) + 214;
      assert DaysBeforeMonth(year, 11) == DaysBeforeMonth(year, 3) + 245;
      assert DaysBeforeMonth(year, 12) == DaysBeforeMonth(year, 3) + 275;
    }
  }

  /** Days from 0000-03-01 to the start of a month, from the year that starts in March. */
  function MarchCount(year: int, month: int): int {
    var y := if month <= 2 then year - 1 else year;
    365 * y + LeapDays(y) + (153 * (month + (if month > 2 then -3 else 9)) + 2) / 5
  }

  lemma ErasCountFromMarch(year: int, month: nat, day: nat)
    requires 1 <= month <= 12 && 1 <= day <= 31
    ensures SecondsFromCivil(year, month, day) ==
              Some((MarchCount(year, month) + day - 1 - 719468) * SECONDS_PER_DAY)
  {
    var y := if month <= 2 then year - 1 else year;
    EraIsFloored(y);
    EraSplitsLeapDays(y);
    var era, yoe := y / 400, y % 400;
    assert y - era * 400 == yoe;
  }

  lemma MarchCountIsDayCount(date: Date)
    requires 1 <= date.month <= 12
    ensures MarchCount(date.year, date.month) + date.day - 1 - 719468 == DayNumber(date)
  {
    YearsInClosedForm(date.year);
    LeapDaysStep(date.year);
    MonthsFromMarch(date.year, date.month);
  }

  /** For every year, month 1..12 and day 1..31 the conversion counts days, and it refuses everything else. */
  lemma SecondsCountDays(year: int, month: nat, day: nat)
    ensures SecondsFromCivil(year, month, day) ==
              if 1 <= month <= 12 && 1 <= day <= 31 then Some(DayNumber(Date(year, month, day)) * SECONDS_PER_DAY)
              else None
  {
    if 1 <= month <= 12 && 1 <= day <= 31 {
      ErasCountFromMarch(year, month, day);
      MarchCountIsDayCount(Date(year, month, day));
    }
  }

  // ----- Order, successor and inverse -----

  predicate IsBefore(a: Date, b: Date) {
    || a.year < b.year
    || (a.year == b.year && (a.month < b.month || (a.month == b.month && a.day < b.day)))
  }

  function Successor(date: Date): Date
    requires IsValid(date)
  {
    if date.day < DaysInMonth(date.year, date.month) then date.(day := date.day + 1)
    else if date.month < 12 then Date(date.year, date.month + 1, 1)
    else Date(date.year + 1, 1, 1)
  }

  function Predecessor(date: Date): Date
    requires IsValid(date)
  {
    if date.day > 1 then date.(day := date.day - 1)
    else if date.month > 1 then Date(date.year, date.month - 1, DaysInMonth(date.year, date.month - 1))
    else Date(date.year - 1, 12, 31)
  }

  lemma YearIsItsMonths(year: int)
    ensures DaysBeforeMonth(year, 12) + 31 == DaysInYear(year)
  {
    MonthsFromMarch(year, 12);
  }

  lemma YearsAddUp(year: int)
    ensures DaysBeforeYear(year + 1) == DaysBeforeYear(year) + DaysInYear(year)
  {
    YearsInClosedForm(year);
    YearsInClosedForm(year + 1);
    LeapDaysStep(year);
  }

  lemma SuccessorAddsOne(date: Date)
    requires IsValid(date)
    ensures IsValid(Successor(date)) && DayNumber(Successor(date)) == DayNumber(date) + 1
  {
    YearIsItsMonths(date.year);
    YearsAddUp(date.year);
  }

  lemma PredecessorTakesOne(date: Date)
    requires IsValid(date)
    ensures IsValid(Predecessor(date)) && DayNumber(Predecessor(date)) == DayNumber(date) - 1
  {
    YearIsItsMonths(date.year - 1);
    YearsAddUp(date.year - 1);
  }

  lemma {:induction false} MonthsAscend(year: int, a: int, b: int)
    requires 1 <= a < b <= 12
    ensures DaysBeforeMonth(year, a) + DaysInMonth(year, a) <= DaysBeforeMonth(year, b)
    decreases b - a
  {
    if a + 1 < b {
      MonthsAscend(year, a + 1, b);
      assert DaysBeforeMonth(year, a + 1) == DaysBeforeMonth(year, a) + DaysInMonth(year, a);
    }
  }

  lemma {:induction false} YearsAscend(a: int, b: int)
    requires a < b
    ensures DaysBeforeYear(a) + DaysInYear(a) <= DaysBeforeYear(b)
    decreases b - a
  {
    YearsAddUp(a);
    if a + 1 < b {
      YearsAscend(a + 1, b);
    }
  }

  lemma DayIsWithinItsYear(date: Date)
    requires IsValid(date)
    ensures DaysBeforeYear(date.year) <= DayNumber(date) < DaysBeforeYear(date.year) + DaysInYear(date.year)
  {
    YearIsItsMonths(date.year);
    if date.month < 12 {
      MonthsAscend(date.year, date.month, 12);
    }
    if date.month > 1 {
      MonthsAscend(date.year, 1, date.month);
    }
  }

  /** The conversion keeps the order of dates, strictly. */
  lemma LaterDatesCountMore(a: Date, b: Date)
    requires IsValid(a) && IsValid(b)
    ensures IsBefore(a, b) <==> DayNumber(a) < DayNumber(b)
    ensures SecondsFromCivil(a.year, a.month, a.day).Some? && SecondsFromCivil(b.year, b.month, b.day).Some?
    ensures IsBefore(a, b) <==>
            SecondsFromCivil(a.year, a.month, a.day).value < SecondsFromCivil(b.year, b.month, b.day).value
  {
    SecondsCountDays(a.year, a.month, a.day);
    SecondsCountDays(b.year, b.month, b.day);
    if IsBefore(a, b) {
      EarlierCountsLess(a, b);
    } else if IsBefore(b, a) {
      EarlierCountsLess(b, a);
    } else {
      assert a == b;
    }
  }

  lemma EarlierCountsLess(a: Date, b: Date)
    requires IsValid(a) && IsValid(b) && IsBefore(a, b)
    ensures DayNumber(a) < DayNumber(b)
  {
    if a.year < b.year {
      DayIsWithinItsYear(a);
      DayIsWithinItsYear(b);
      YearsAscend(a.year, b.year);
    } else if a.month < b.month {
      MonthsAscend(a.year, a.month, b.month);
    }
  }

  /** The date of a day number, counted away from 1970-01-01. */
  function DateOf(days: int): (date: Date)
    ensures IsValid(date) && DayNumber(date) == days
    decreases if days >= 0 then days else -days
  {
    if days == 0 then Date(1970, 1, 1)
    else if days > 0 then
      var before := DateOf(days - 1);
      SuccessorAddsOne(before);
      Successor(before)
    else
      var after := DateOf(days + 1);
      PredecessorTakesOne(after);
      Predecessor(after)
  }

  /** Converting a valid date and counting back returns it; so two valid dates never share an instant. */
  lemma ConversionIsInvertible(date: Date)
    requires IsValid(date)
    ensures SecondsFromCivil(date.year, date.month, date.day).Some?
    ensures SecondsFromCivil(date.year, date.month, date.day).value % SECONDS_PER_DAY == 0
    ensures DateOf(SecondsFromCivil(date.year, date.month, date.day).value / SECONDS_PER_DAY) == date
  {
    SecondsCountDays(date.year, date.month, date.day);
    var days := DayNumber(date);
    QuotientIs(days * SECONDS_PER_DAY, SECONDS_PER_DAY, days, 0);
    LaterDatesCountMore(DateOf(days), date);
    LaterDatesCountMore(date, DateOf(days));
  }

  /** A day past the end of its month is not refused: it is the date that many days later. */
  lemma OverlongDayRollsOver(year: int, month: nat, day: nat)
    requires 1 <= month <= 12 && day <= 31 && DaysInMonth(year, month) < day
    ensures var next := Date(year, month + 1, day - DaysInMonth(year, month));
            && month < 12 && IsValid(next)
            && SecondsFromCivil(year, month, day) == SecondsFromCivil(year, month + 1, next.day)
  {
    SecondsCountDays(year, month, day);
    SecondsCountDays(year, month + 1, day - DaysInMonth(year, month));
  }
}
