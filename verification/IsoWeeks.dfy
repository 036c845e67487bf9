/** The week calendar of section 3.2.2 of ISO 8601:2004, and how the printed week labels relate to it. */
module IsoWeeks {
  import opened Text
  import opened UtcCalendar
  import opened PeriodLabels

  /** The first Thursday of a calendar year. */
  function FirstThursday(y: int): (t: int)
    ensures WeekDay(t) == 4
    ensures DayFromYear(y) <= t < DayFromYear(y) + 7
  {
    hide DayFromYear;
    DayFromYear(y) + (4 - WeekDay(DayFromYear(y))) % 7
  }

  /** Week 1 of a year is the week that holds its first Thursday; weeks begin on Monday. */
  function WeekOne(y: int): int {
    FirstThursday(y) - 3
  }

  ghost predicate InIsoYear(d: int, y: int) {
    WeekOne(y) <= d < WeekOne(y + 1)
  }

  /** The ISO week number of a day of ISO year `y`. */
  ghost function IsoWeek(d: int, y: int): int {
    (d - WeekOne(y)) / 7 + 1
  }

  /** Years that begin on a Friday, a Saturday or a Sunday. */
  predicate BeginsLate(y: int) {
    var w := WeekDay(DayFromYear(y));
    w == 5 || w == 6 || w == 0
  }

  /** The calendar year of a week's Thursday. */
  function ThursdayYear(d: int): int {
    YearFromDay(7 * WeekIndex(d))
  }

  lemma ThursdayAndWeekOne(d: int, y: int)
    ensures WeekOne(y) <= d <==> FirstThursday(y) <= 7 * WeekIndex(d)
    ensures FirstThursday(y) <= 7 * WeekIndex(d) <==> DayFromYear(y) <= 7 * WeekIndex(d)
    ensures IsoWeek(d, y) == (7 * WeekIndex(d) - FirstThursday(y)) / 7 + 1
  {
    var t := FirstThursday(y);
    hide DayFromYear, FirstThursday;
    assert (t + 4) % 7 == 4;
    assert t % 7 == 0;
    SevenStep(WeekIndex(d), t / 7, DayFromYear(y));
    IsoWeekStep(d, t);
  }

  lemma SevenStep(k: int, f: int, start: int)
    requires start <= 7 * f < start + 7
    ensures 7 * f <= 7 * k <==> start <= 7 * k
  {
  }

  lemma IsoWeekStep(d: int, t: int)
    requires t % 7 == 0
    ensures (d - (t - 3)) / 7 == (7 * WeekIndex(d) - t) / 7
    ensures t - 3 <= d <==> t <= 7 * WeekIndex(d)
  {
    assert d - (t - 3) == (d + 3) - 7 * (t / 7);
  }

  /** The year in a week label is the ISO week-year, and there is no other. */
  lemma ThursdayYearIsIsoYear(d: int, y: int)
    ensures InIsoYear(d, y) <==> y == ThursdayYear(d)
  {
    hide DayFromYear, YearFromDay, WeekOne, FirstThursday, WeekIndex;
    ThursdayAndWeekOne(d, y);
    ThursdayAndWeekOne(d, y + 1);
    if InIsoYear(d, y) {
      YearIsUnique(7 * WeekIndex(d), y);
    }
  }

  lemma FirstThursdayIs(y: int)
    ensures FirstThursday(y) == DayFromYear(y) + (4 - WeekDay(DayFromYear(y))) % 7
    ensures 7 * (FirstThursday(y) / 7) == FirstThursday(y)
  {
    hide DayFromYear;
  }

  /** The printed week number against the ISO one, for a Thursday read with its own year. */
  lemma WeekNumberAgainstIso(d: int, y: int)
    requires y == ThursdayYear(d) && !(0 <= y <= 99)
    ensures WeekNumber(7 * WeekIndex(d)) == IsoWeek(d, y) + if BeginsLate(y) then 1 else 0
  {
    hide DayFromYear, YearFromDay, WeekIndex, FirstThursday, WeekDay, DateUtc, CeilSevenths, IsoWeek;
    ThursdayAndWeekOne(d, y);
    FourthOfJanuary(y);
    FirstThursdayIs(y);
    CeilAgainstFloor(WeekIndex(d), FirstThursday(y) / 7, DayFromYear(y));
  }

  lemma CeilAgainstFloor(k: int, f: int, start: int)
    requires 7 * f == start + (4 - WeekDay(start)) % 7
    ensures CeilSevenths(7 * k - (start + 3)) == (7 * k - 7 * f) / 7
            + if WeekDay(start) == 5 || WeekDay(start) == 6 || WeekDay(start) == 0 then 1 else 0
  {
    var w := WeekDay(start);
    assert 7 * k - (start + 3) == 7 * (k - f) + (4 - w) % 7 - 3;
    CeilOfShift(k - f, (4 - w) % 7 - 3);
    assert (7 * k - 7 * f) / 7 == k - f;
  }

  lemma CeilOfShift(m: int, r: int)
    requires -3 <= r <= 3
    ensures CeilSevenths(7 * m + r) == m + if r > 0 then 1 else 0
  {
  }

  /** The label of ISO year `y` and week `w`. */
  function IsoText(y: int, w: int): string {
    IntegerText(y) + "-W" + PadTwo(IntegerText(w))
  }

  /**
   * The exact relation to the standard. For every day, the weekly label shows the ISO week-year and, as week, the
   * ISO week number or one more, the latter when that year begins on a Friday, Saturday or Sunday, if and only if
   * neither the day's own year nor its week-year lies in 0 to 99; and then the number lies in 1 to 53.
   */
  lemma WeekLabelAgainstIso(d: int, y: int)
    requires InIsoYear(d, y)
    ensures FormatWeekly(d) == IsoText(y, IsoWeek(d, y) + if BeginsLate(y) then 1 else 0) <==>
            !(0 <= YearFromDay(d) <= 99) && !(0 <= y <= 99)
    ensures !(0 <= y <= 99) ==> 1 <= IsoWeek(d, y) + (if BeginsLate(y) then 1 else 0) <= 53
    ensures BeginsLate(y) <==> WeekDay(DayFromYear(y)) == 5 || WeekDay(DayFromYear(y)) == 6 || WeekDay(DayFromYear(y)) == 0
    ensures IsoWeek(d, y) == (d - (FirstThursday(y) - 3)) / 7 + 1 && FirstThursday(y) - 3 <= d < FirstThursday(y + 1) - 3
  {
    hide DayFromYear, YearFromDay, WeekIndex, IsoWeek, IntegerText, PadTwo, BeginsLate, WeekNumber, ThroughUtc, InIsoYear, FormatWeekly;
    IsoInPlainTerms(d, y);
    ThursdayYearIsIsoYear(d, y);
    WeekLabelIsOfWeek(d);
    ThroughUtcIs(d);
    if !(0 <= y <= 99) {
      WeekNumberAgainstIso(d, y);
      WeekNumberRange(WeekIndex(d));
    }
    if FormatWeekly(d) == IsoText(y, IsoWeek(d, y) + if BeginsLate(y) then 1 else 0) {
      LabelDecides(d, y);
    }
  }

  lemma IsoInPlainTerms(d: int, y: int)
    requires InIsoYear(d, y)
    ensures BeginsLate(y) <==> WeekDay(DayFromYear(y)) == 5 || WeekDay(DayFromYear(y)) == 6 || WeekDay(DayFromYear(y)) == 0
    ensures IsoWeek(d, y) == (d - (FirstThursday(y) - 3)) / 7 + 1 && FirstThursday(y) - 3 <= d < FirstThursday(y + 1) - 3
  {
    hide DayFromYear, FirstThursday, WeekDay;
  }

  lemma LabelDecides(d: int, y: int)
    requires InIsoYear(d, y)
    requires FormatWeekly(d) == IsoText(y, IsoWeek(d, y) + if BeginsLate(y) then 1 else 0)
    ensures !(0 <= YearFromDay(d) <= 99) && !(0 <= y <= 99)
  {
    hide DayFromYear, YearFromDay, WeekIndex, IsoWeek, IntegerText, PadTwo, BeginsLate, WeekNumber, ThroughUtc, InIsoYear, FormatWeekly;
    var e := ThroughUtc(d);
    var week := IsoWeek(d, y) + if BeginsLate(y) then 1 else 0;
    ThursdayYearIsIsoYear(d, y);
    WeekLabelIsOfWeek(d);
    ThroughUtcIs(d);
    SameYearSameWeek(ThursdayYear(e), y, WeekNumber(7 * WeekIndex(e)), week);
    NearYears(e);
    NearYears(d);
    if 0 <= y <= 99 {
      SmallYearNumber(d, y);
    }
  }

  lemma SameYearSameWeek(y: int, z: int, v: int, w: int)
    requires IsoText(y, v) == IsoText(z, w)
    ensures y == z && v == w
  {
    hide IntegerText, PadTwo;
    var a, b := PadTwo(IntegerText(v)), PadTwo(IntegerText(w));
    SplitAtW(y, z, a, b);
    assert IsoText(y, v) == IntegerText(y) + ("-W" + a) && IsoText(z, w) == IntegerText(z) + ("-W" + b);
    YearPart(y, z, "-W" + a, "-W" + b);
    assert ("-W" + a)[2..] == a && ("-W" + b)[2..] == b;
    PaddedTextIsInjective(v, w);
  }

  lemma NearYears(d: int)
    ensures YearFromDay(d) - 1 <= ThursdayYear(d) <= YearFromDay(d) + 1
  {
    hide DayFromYear, YearFromDay;
    var y, z := YearFromDay(d), ThursdayYear(d);
    if z + 1 < y {
      YearsAscend(z + 1, y);
    }
    if y + 1 < z {
      YearsAscend(y + 1, y + 2);
      if y + 2 < z { YearsAscend(y + 2, z); }
    }
  }

  lemma LateFourthOfJanuary(y: int)
    requires 0 <= y <= 99
    ensures DateUtc(y, 0, 4) == DayFromYear(1900 + y) + 3
  {
    hide DayFromYear;
  }

  lemma FarBehind(t: int, anchor: int)
    requires t + 365 <= anchor
    ensures CeilSevenths(t - anchor) < -1
  {
  }

  /** In the years 0 to 99 the anchor is nineteen centuries late, and the week number comes out negative. */
  lemma SmallYearNumber(d: int, y: int)
    requires y == ThursdayYear(d) && 0 <= y <= 99
    ensures WeekNumber(7 * WeekIndex(d)) < 0 < IsoWeek(d, y)
  {
    hide DayFromYear, YearFromDay, WeekIndex, FirstThursday, IsoWeek, CeilSevenths, DateUtc;
    LateFourthOfJanuary(y);
    YearsAscend(y + 1, 1900 + y);
    ThursdayAndWeekOne(d, y);
    FarBehind(7 * WeekIndex(d), DayFromYear(1900 + y) + 3);
  }

  lemma January2027()
    ensures DayFromYear(2027) == 20819 && DayFromYear(2028) == 21184
    ensures FirstThursday(2027) == 20825 && FirstThursday(2028) == 21189 && BeginsLate(2027)
  {
  }

  lemma TextOf2027()
    ensures IsoText(2027, 2) == "2027-W02"
  {
    assert Numeral(2) == "2" && Numeral(20) == "20" && Numeral(202) == "202" && Numeral(2027) == "2027";
  }

  /** For one: 4 January 2027, a Monday, is in ISO week 1 of 2027 and is labelled as week 2. */
  lemma FourthOfJanuary2027()
    ensures MakeDay(2027, 0, 4) == 20822 && WeekDay(20822) == 1
    ensures InIsoYear(20822, 2027) && IsoWeek(20822, 2027) == 1
    ensures FormatWeekly(20822) == "2027-W02"
  {
    January2027();
    TextOf2027();
    hide FormatWeekly, YearFromDay, IsoText, FirstThursday, DayFromYear;
    YearIsUnique(20822, 2027);
    WeekLabelAgainstIso(20822, 2027);
  }
}
