/**
 * UTC dates as sections 15.9.1.3 to 15.9.1.6 and 15.9.1.12 of ECMA-262 5.1 define them, over day numbers. Day 0 is
 * 1 January 1970; months count from 0; a day number stands for that day's midnight.
 */
module UtcCalendar {

  const MS_PER_DAY: int := 86400000

  function DayOfInstant(ms: int): int {
    ms / MS_PER_DAY
  }

  // ----- Years

  predicate IsLeap(y: int) {
    y % 4 == 0 && (y % 100 != 0 || y % 400 == 0)
  }

  function DaysInYear(y: int): int {
    if IsLeap(y) then 366 else 365
  }

  function DayFromYear(y: int): int {
    365 * (y - 1970) + (y - 1969) / 4 - (y - 1901) / 100 + (y - 1601) / 400
  }

  lemma YearsAdjoin(y: int)
    ensures DayFromYear(y + 1) == DayFromYear(y) + DaysInYear(y)
  {
    FourthYears(y);
    HundredthYears(y);
    FourHundredthYears(y);
    LeapRule(y);
  }

  lemma FourthYears(y: int)
    ensures (y + 1 - 1969) / 4 == (y - 1969) / 4 + if y % 4 == 0 then 1 else 0
  {
  }

  lemma HundredthYears(y: int)
    ensures (y + 1 - 1901) / 100 == (y - 1901) / 100 + if y % 100 == 0 then 1 else 0
  {
  }

  lemma FourHundredthYears(y: int)
    ensures (y + 1 - 1601) / 400 == (y - 1601) / 400 + if y % 400 == 0 then 1 else 0
  {
  }

  lemma LeapRule(y: int)
    ensures IsLeap(y) <==> y % 4 == 0 && (y % 100 != 0 || y % 400 == 0)
    ensures y % 400 == 0 ==> y % 100 == 0
    ensures y % 100 == 0 ==> y % 4 == 0
  {
  }

  lemma {:induction false} YearsAscend(y: int, z: int)
    requires y < z
    ensures DayFromYear(y) + 365 <= DayFromYear(z)
    decreases z - y
  {
    YearsAdjoin(z - 1);
    if y < z - 1 {
      YearsAscend(y, z - 1);
    }
  }

  /** The year a day lies in, found by counting up from a year that begins early enough. */
  function YearFrom(y: int, d: int): (r: int)
    requires DayFromYear(y) <= d
    ensures DayFromYear(r) <= d < DayFromYear(r + 1)
    decreases d - DayFromYear(y)
  {
    YearsAscend(y, y + 1);
    if d < DayFromYear(y + 1) then y else YearFrom(y + 1, d)
  }

  function YearFromDay(d: int): (y: int)
    ensures DayFromYear(y) <= d < DayFromYear(y + 1)
  {
    YearFrom(if d >= 0 then 1970 + d / 366 else 1970 + d / 365, d)
  }

  lemma YearIsUnique(d: int, y: int)
    requires DayFromYear(y) <= d < DayFromYear(y + 1)
    ensures YearFromDay(d) == y
  {
    hide DayFromYear, YearFromDay;
    var z := YearFromDay(d);
    if z < y && z + 1 < y {
      YearsAscend(z + 1, y);
    } else if y < z && y + 1 < z {
      YearsAscend(y + 1, z);
    }
  }

  // ----- Months

  /** Days of the year before month `m`; month 12 is the next January. */
  function DaysBeforeMonth(m: int, leap: bool): int {
    var extra := if leap then 1 else 0;
    if m <= 0 then 0
    else if m == 1 then 31
    else if m == 2 then 59 + extra
    else if m == 3 then 90 + extra
    else if m == 4 then 120 + extra
    else if m == 5 then 151 + extra
    else if m == 6 then 181 + extra
    else if m == 7 then 212 + extra
    else if m == 8 then 243 + extra
    else if m == 9 then 273 + extra
    else if m == 10 then 304 + extra
    else if m == 11 then 334 + extra
    else 365 + extra
  }

  function MonthWithin(dayInYear: int, leap: bool): (m: int)
    requires 0 <= dayInYear < if leap then 366 else 365
    ensures 0 <= m < 12 && DaysBeforeMonth(m, leap) <= dayInYear < DaysBeforeMonth(m + 1, leap)
  {
    if dayInYear < DaysBeforeMonth(1, leap) then 0
    else if dayInYear < DaysBeforeMonth(2, leap) then 1
    else if dayInYear < DaysBeforeMonth(3, leap) then 2
    else if dayInYear < DaysBeforeMonth(4, leap) then 3
    else if dayInYear < DaysBeforeMonth(5, leap) then 4
    else if dayInYear < DaysBeforeMonth(6, leap) then 5
    else if dayInYear < DaysBeforeMonth(7, leap) then 6
    else if dayInYear < DaysBeforeMonth(8, leap) then 7
    else if dayInYear < DaysBeforeMonth(9, leap) then 8
    else if dayInYear < DaysBeforeMonth(10, leap) then 9
    else if dayInYear < DaysBeforeMonth(11, leap) then 10
    else 11
  }

  function DayWithinYear(d: int): (n: int)
    ensures 0 <= n < DaysInYear(YearFromDay(d))
  {
    YearsAdjoin(YearFromDay(d));
    d - DayFromYear(YearFromDay(d))
  }

  function MonthFromDay(d: int): (m: int)
    ensures 0 <= m < 12
  {
    MonthWithin(DayWithinYear(d), IsLeap(YearFromDay(d)))
  }

  function DateFromDay(d: int): (n: int)
    ensures 1 <= n <= 31
  {
    hide YearFromDay, DayFromYear, IsLeap;
    DayWithinYear(d) - DaysBeforeMonth(MonthFromDay(d), IsLeap(YearFromDay(d))) + 1
  }

  function WeekDay(d: int): (w: int)
    ensures 0 <= w < 7
  {
    (d + 4) % 7
  }

  // ----- Making dates

  /** `MakeDay`: months and dates outside their range carry over. */
  function MakeDay(year: int, month: int, date: int): int {
    var y := year + month / 12;
    DayFromYear(y) + DaysBeforeMonth(month % 12, IsLeap(y)) + date - 1
  }

  /** `Date.UTC`, which reads a year from 0 to 99 as one of the twentieth century. */
  function DateUtc(year: int, month: int, date: int): int {
    MakeDay(if 0 <= year <= 99 then 1900 + year else year, month, date)
  }

  /** `setUTCDate`. */
  function SetUtcDate(d: int, date: int): int {
    MakeDay(YearFromDay(d), MonthFromDay(d), date)
  }

  lemma FieldsMakeDay(d: int)
    ensures MakeDay(YearFromDay(d), MonthFromDay(d), DateFromDay(d)) == d
  {
    hide YearFromDay, DayFromYear, DaysBeforeMonth, MonthWithin, IsLeap;
  }

  /** Setting the date moves by whole days, across the ends of months and years. */
  lemma SetDateMoves(d: int, date: int)
    ensures SetUtcDate(d, date) == d - DateFromDay(d) + date
  {
    hide YearFromDay, MonthFromDay, DateFromDay, DayFromYear, DaysBeforeMonth, IsLeap;
    FieldsMakeDay(d);
  }

  /** The month a day lies in, counted from year 0. */
  function MonthIndex(d: int): int {
    12 * YearFromDay(d) + MonthFromDay(d)
  }

  function MonthStart(k: int): int {
    MakeDay(0, k, 1)
  }

  lemma MakeFirst(year: int, month: int)
    ensures MakeDay(year, month, 1) == MonthStart(12 * year + month)
  {
    assert (12 * year + month) / 12 == year + month / 12;
  }

  lemma MonthsAdjoin(k: int)
    ensures MonthStart(k) + 28 <= MonthStart(k + 1) <= MonthStart(k) + 31
  {
    hide MonthStart, DayFromYear, DaysBeforeMonth, IsLeap;
    MonthStartIs(k / 12, k % 12);
    MonthStartIs(k / 12, k % 12 + 1);
    MonthsFillYear(k / 12);
  }

  lemma {:induction false} MonthsAscend(k: int, l: int)
    requires k < l
    ensures MonthStart(k) < MonthStart(l)
    decreases l - k
  {
    hide MonthStart;
    MonthsAdjoin(l - 1);
    if k < l - 1 {
      MonthsAscend(k, l - 1);
    }
  }

  lemma MonthsFillYear(y: int)
    ensures DaysBeforeMonth(0, IsLeap(y)) == 0
    ensures DaysBeforeMonth(12, IsLeap(y)) == DaysInYear(y)
    ensures forall m | 0 <= m < 12 ::
              DaysBeforeMonth(m, IsLeap(y)) + 28 <= DaysBeforeMonth(m + 1, IsLeap(y)) <= DaysBeforeMonth(m, IsLeap(y)) + 31
    ensures forall m | 0 <= m < 12 :: 0 <= DaysBeforeMonth(m, IsLeap(y)) <= DaysInYear(y) - 31
  {
  }

  lemma MonthStartIs(y: int, m: int)
    requires 0 <= m <= 12
    ensures MonthStart(12 * y + m) == DayFromYear(y) + DaysBeforeMonth(m, IsLeap(y))
  {
    hide DayFromYear, DaysBeforeMonth, IsLeap;
    var k := 12 * y + m;
    if m == 12 {
      assert k / 12 == y + 1 && k % 12 == 0;
      YearsAdjoin(y);
      MonthsFillYear(y);
      MonthsFillYear(y + 1);
    } else {
      assert k / 12 == y && k % 12 == m;
    }
  }

  lemma DayIsInItsMonth(d: int)
    ensures MonthStart(MonthIndex(d)) <= d < MonthStart(MonthIndex(d) + 1)
  {
    hide MonthStart, YearFromDay, DayFromYear, DaysBeforeMonth, IsLeap;
    MonthStartIs(YearFromDay(d), MonthFromDay(d));
    MonthStartIs(YearFromDay(d), MonthFromDay(d) + 1);
  }

  /** A day is in month `k` exactly when it lies between the firsts of `k` and of the next month. */
  lemma MonthIsInterval(d: int, k: int)
    ensures MonthIndex(d) == k <==> MonthStart(k) <= d < MonthStart(k + 1)
  {
    hide MonthStart, MonthIndex;
    var l := MonthIndex(d);
    DayIsInItsMonth(d);
    if l < k {
      if l + 1 < k { MonthsAscend(l + 1, k); }
    } else if k < l {
      if k + 1 < l { MonthsAscend(k + 1, l); }
    }
  }

  /** `MakeDay` of the first of a month, whatever its arguments, is dated the first of the month they carry over to. */
  lemma FirstHasFields(k: int)
    ensures YearFromDay(MonthStart(k)) == k / 12
    ensures MonthFromDay(MonthStart(k)) == k % 12
    ensures DateFromDay(MonthStart(k)) == 1
  {
    MonthsAdjoin(k);
    MonthIsInterval(MonthStart(k), k);
  }

  // ----- Reading a date through Date.UTC

  /** The day that `Date.UTC(d.getUTCFullYear(), d.getUTCMonth(), d.getUTCDate())` stands for. */
  function ThroughUtc(d: int): int {
    DateUtc(YearFromDay(d), MonthFromDay(d), DateFromDay(d))
  }

  lemma CenturyMove(y: int, m: int, date: int)
    requires 0 <= y <= 99 && 0 <= m < 12 && 1 <= date <= 31
    ensures DayFromYear(1900) <= MakeDay(1900 + y, m, date) < DayFromYear(2000)
  {
    hide DayFromYear, DaysBeforeMonth, IsLeap;
    YearsAdjoin(1900 + y);
    MonthsFillYear(1900 + y);
    if y > 0 { YearsAscend(1900, 1900 + y); }
    if y < 99 { YearsAscend(1900 + y + 1, 2000); }
    assert m / 12 == 0 && m % 12 == m;
  }

  lemma YearWithin(d: int, from: int, to: int)
    requires DayFromYear(from) <= d < DayFromYear(to)
    ensures from <= YearFromDay(d) < to
  {
    hide DayFromYear, YearFromDay;
    var y := YearFromDay(d);
    if y + 1 < from { YearsAscend(y + 1, from); }
    if to < y { YearsAscend(to, y); }
  }

  /** It is the same day unless the year has one or two digits; then it is one of the twentieth century. */
  lemma ThroughUtcIs(d: int)
    ensures ThroughUtc(d) == d <==> !(0 <= YearFromDay(d) <= 99)
    ensures 0 <= YearFromDay(d) <= 99 ==> 1900 <= YearFromDay(ThroughUtc(d)) <= 1999
    ensures ThroughUtc(ThroughUtc(d)) == ThroughUtc(d)
  {
    hide DayFromYear, YearFromDay, MonthFromDay, DateFromDay, MakeDay;
    FieldsMakeDay(d);
    var e := ThroughUtc(d);
    FieldsMakeDay(e);
    if 0 <= YearFromDay(d) <= 99 {
      CenturyMove(YearFromDay(d), MonthFromDay(d), DateFromDay(d));
      YearWithin(e, 1900, 2000);
    }
  }

  // ----- The calendar in plain numbers

  lemma DayHasItsMilliseconds(ms: int, d: int)
    ensures DayOfInstant(ms) == d <==> 86_400_000 * d <= ms < 86_400_000 * (d + 1)
  {
  }

  /** Weekdays follow one another from Thursday, 1 January 1970. */
  lemma WeekDaysFollow(d: int)
    ensures WeekDay(0) == 4 && WeekDay(d + 1) == if WeekDay(d) == 6 then 0 else WeekDay(d) + 1
  {
  }

  lemma LengthOfMonth(y: int, m: int)
    requires 0 <= m < 12
    ensures DaysBeforeMonth(m + 1, IsLeap(y)) - DaysBeforeMonth(m, IsLeap(y)) ==
            if m == 1 then (if y % 4 == 0 && (y % 100 != 0 || y % 400 == 0) then 29 else 28)
            else if m == 3 || m == 5 || m == 8 || m == 10 then 30 else 31
  {
  }

  /** The length of every month there is; with the epoch this says where each one begins. */
  lemma MonthLengths(k: int)
    ensures MonthStart(12 * 1970) == 0
    ensures var y, m := k / 12, k % 12;
            MonthStart(k + 1) - MonthStart(k) ==
            if m == 1 then (if y % 4 == 0 && (y % 100 != 0 || y % 400 == 0) then 29 else 28)
            else if m == 3 || m == 5 || m == 8 || m == 10 then 30 else 31
  {
    EpochIsZero();
    hide MonthStart, DayFromYear, DaysBeforeMonth, IsLeap;
    MonthStartIs(k / 12, k % 12);
    MonthStartIs(k / 12, k % 12 + 1);
    LengthOfMonth(k / 12, k % 12);
  }

  lemma EpochIsZero()
    ensures MonthStart(12 * 1970) == 0
  {
  }

  /** A day's fields say which month it is in and how far into it. */
  lemma FieldsCount(d: int)
    ensures 0 <= MonthFromDay(d) < 12
    ensures d == MonthStart(12 * YearFromDay(d) + MonthFromDay(d)) + DateFromDay(d) - 1
    ensures 1 <= DateFromDay(d) <= MonthStart(12 * YearFromDay(d) + MonthFromDay(d) + 1)
                                   - MonthStart(12 * YearFromDay(d) + MonthFromDay(d))
  {
    hide MonthStart, YearFromDay, MonthFromDay, DateFromDay, MakeDay;
    FieldsMakeDay(d);
    MakeDayCounts(YearFromDay(d), MonthFromDay(d), DateFromDay(d));
    DayIsInItsMonth(d);
  }

  /** `MakeDay` carries months over to years, and counts dates on from the first of the month. */
  lemma MakeDayCounts(year: int, month: int, date: int)
    ensures MakeDay(year, month, date) == MonthStart(12 * year + month) + date - 1
  {
    hide MonthStart;
    MakeFirst(year, month);
  }

  /** `Date.UTC` does so too, except that it reads the years 0 to 99 as 1900 to 1999. */
  lemma DateUtcCounts(year: int, month: int, date: int)
    ensures DateUtc(year, month, date) ==
            MonthStart(12 * (if 0 <= year <= 99 then 1900 + year else year) + month) + date - 1
  {
    hide MonthStart, MakeDay;
    MakeDayCounts(if 0 <= year <= 99 then 1900 + year else year, month, date);
  }
}
