/** The bucket labels of the revenue trend: how they are printed, which moments share one, and how they sort. */
module PeriodLabels {
  import opened Text
  import opened UtcCalendar

  datatype Period = Daily | Weekly | Monthly | Yearly

  // ----- Printers

  function FormatDaily(d: int): string {
    IntegerText(YearFromDay(d)) + "-" + PadTwo(IntegerText(MonthFromDay(d) + 1)) + "-" + PadTwo(IntegerText(DateFromDay(d)))
  }

  function FormatMonthly(d: int): string {
    IntegerText(YearFromDay(d)) + "-" + PadTwo(IntegerText(MonthFromDay(d) + 1))
  }

  /** `Math.ceil(a / 7)` of an integer. */
  function CeilSevenths(a: int): int {
    -((-a) / 7)
  }

  /** The week number as the code computes it for the Thursday `t`: anchored at 4 January, rounded up. */
  function WeekNumber(t: int): int {
    1 + CeilSevenths(t - DateUtc(YearFromDay(t), 0, 4))
  }

  function WeekText(t: int): string {
    IntegerText(YearFromDay(t)) + "-W" + PadTwo(IntegerText(WeekNumber(t)))
  }

  function FormatWeekly(d: int): string {
    var d2 := ThroughUtc(d);
    WeekText(SetUtcDate(d2, DateFromDay(d2) + 4 - (if WeekDay(d2) == 0 then 7 else WeekDay(d2))))
  }

  function ToWeekStart(d: int): int {
    var diff := if WeekDay(d) == 0 then -6 else 1 - WeekDay(d);
    var monday := ThroughUtc(d);
    SetUtcDate(monday, DateFromDay(monday) + diff)
  }

  function BucketLabel(ms: int, period: Period): string {
    var d := DayOfInstant(ms);
    match period
    case Yearly => IntegerText(YearFromDay(d))
    case Monthly => FormatMonthly(d)
    case Weekly => FormatWeekly(d)
    case Daily => FormatDaily(d)
  }

  // ----- Buckets as numbers

  /** Weeks run from Monday to Sunday; week `k` is the one whose Thursday is day `7 * k`. */
  function WeekIndex(d: int): int {
    (d + 3) / 7
  }

  /** The consecutive number of the bucket of day `d`. */
  function BucketOf(period: Period, d: int): int {
    match period
    case Daily => d
    case Weekly => WeekIndex(ThroughUtc(d))
    case Monthly => MonthIndex(d)
    case Yearly => YearFromDay(d)
  }

  function LabelOf(period: Period, k: int): string {
    match period
    case Daily => FormatDaily(k)
    case Weekly => WeekText(7 * k)
    case Monthly => FormatMonthly(MonthStart(k))
    case Yearly => IntegerText(k)
  }

  /** The nearest Thursday lies in the same Monday-to-Sunday week. */
  lemma NearestThursday(d: int)
    ensures SetUtcDate(d, DateFromDay(d) + 4 - (if WeekDay(d) == 0 then 7 else WeekDay(d))) == 7 * WeekIndex(d)
  {
    hide SetUtcDate, DateFromDay;
    SetDateMoves(d, DateFromDay(d) + 4 - (if WeekDay(d) == 0 then 7 else WeekDay(d)));
  }

  lemma WeekLabelIsOfWeek(d: int)
    ensures FormatWeekly(d) == WeekText(7 * WeekIndex(ThroughUtc(d)))
  {
    hide SetUtcDate, DateFromDay, ThroughUtc, WeekDay, WeekIndex, WeekText;
    NearestThursday(ThroughUtc(d));
  }

  lemma MonthLabelIsOfMonth(d: int)
    ensures FormatMonthly(d) == FormatMonthly(MonthStart(MonthIndex(d)))
  {
    hide YearFromDay, MonthFromDay, MonthStart;
    FirstHasFields(MonthIndex(d));
    assert MonthIndex(d) / 12 == YearFromDay(d) && MonthIndex(d) % 12 == MonthFromDay(d);
  }

  /** Every label is the label of its bucket. */
  lemma LabelIsOfBucket(ms: int, period: Period)
    ensures BucketLabel(ms, period) == LabelOf(period, BucketOf(period, DayOfInstant(ms)))
  {
    hide FormatWeekly, FormatMonthly, FormatDaily, YearFromDay, ThroughUtc, MonthIndex, MonthStart, WeekText, WeekIndex;
    WeekLabelIsOfWeek(DayOfInstant(ms));
    MonthLabelIsOfMonth(DayOfInstant(ms));
  }

  // ----- Different buckets have different labels

  lemma {:induction false} LeadingZero(s: string)
    ensures NumeralValue("0" + s) == NumeralValue(s)
  {
    if s != [] {
      LeadingZero(s[..|s| - 1]);
      assert ("0" + s)[..|s|] == "0" + s[..|s| - 1];
    } else {
      assert "0" + s == "0" && "0"[..0] == [];
    }
  }

  lemma PaddedValue(n: nat)
    ensures NumeralValue(PadTwo(IntegerText(n))) == n
    ensures PadTwo(IntegerText(n))[0] != '-'
  {
    NumeralRoundTrip(n);
    LeadingZero(Numeral(n));
    SignShows(n);
  }

  lemma PaddedTextIsInjective(m: int, n: int)
    requires PadTwo(IntegerText(m)) == PadTwo(IntegerText(n))
    ensures m == n
  {
    if m >= 0 { PaddedValue(m); }
    if n >= 0 { PaddedValue(n); }
    SignShows(m);
    SignShows(n);
    if m < 0 && n < 0 {
      IntegerTextIsInjective(m, n);
    }
  }

  lemma YearPart(y: int, z: int, a: string, b: string)
    requires |a| == |b| && IntegerText(y) + a == IntegerText(z) + b
    ensures y == z && a == b
  {
    var s, t := IntegerText(y), IntegerText(z);
    assert |s| == |t|;
    assert (s + a)[..|s|] == s && (t + b)[..|t|] == t && (s + a)[|s|..] == a && (t + b)[|t|..] == b;
    IntegerTextIsInjective(y, z);
  }

  lemma FieldPart(m: nat, n: nat, a: string, b: string)
    requires m < 100 && n < 100
    requires "-" + PadTwo(IntegerText(m)) + a == "-" + PadTwo(IntegerText(n)) + b
    ensures m == n && a == b
  {
    TwoDigits(m);
    TwoDigits(n);
    var s, t := PadTwo(IntegerText(m)), PadTwo(IntegerText(n));
    assert ("-" + s + a)[1..3] == s && ("-" + t + b)[1..3] == t;
    assert ("-" + s + a)[3..] == a && ("-" + t + b)[3..] == b;
  }

  lemma FieldLength(n: nat)
    requires n < 100
    ensures |"-" + PadTwo(IntegerText(n))| == 3
  {
    TwoDigits(n);
  }

  lemma MonthlyIsInjective(d: int, e: int)
    requires FormatMonthly(d) == FormatMonthly(e)
    ensures YearFromDay(d) == YearFromDay(e) && MonthFromDay(d) == MonthFromDay(e)
  {
    hide YearFromDay, MonthFromDay, IntegerText, PadTwo;
    var m, n := MonthFromDay(d) + 1, MonthFromDay(e) + 1;
    FieldLength(m);
    FieldLength(n);
    assert FormatMonthly(d) == IntegerText(YearFromDay(d)) + ("-" + PadTwo(IntegerText(m)));
    assert FormatMonthly(e) == IntegerText(YearFromDay(e)) + ("-" + PadTwo(IntegerText(n)));
    YearPart(YearFromDay(d), YearFromDay(e), "-" + PadTwo(IntegerText(m)), "-" + PadTwo(IntegerText(n)));
    FieldPart(m, n, "", "");
  }

  lemma DailyIsInjective(d: int, e: int)
    requires FormatDaily(d) == FormatDaily(e)
    ensures d == e
  {
    hide YearFromDay, MonthFromDay, DateFromDay, IntegerText, PadTwo, MakeDay;
    var p, q := DateFromDay(d), DateFromDay(e);
    FieldLength(p);
    FieldLength(q);
    var a, b := FormatMonthly(d), FormatMonthly(e);
    var s, t := "-" + PadTwo(IntegerText(p)), "-" + PadTwo(IntegerText(q));
    assert FormatDaily(d) == a + s && FormatDaily(e) == b + t;
    assert |a| == |b|;
    assert (a + s)[..|a|] == a && (b + t)[..|b|] == b && (a + s)[|a|..] == s && (b + t)[|b|..] == t;
    MonthlyIsInjective(d, e);
    FieldPart(p, q, "", "");
    FieldsMakeDay(d);
    FieldsMakeDay(e);
  }

  lemma FirstLetter(y: int, a: string)
    ensures (IntegerText(y) + "-W" + a)[|IntegerText(y)| + 1] == 'W'
    ensures forall i | 0 <= i <= |IntegerText(y)| :: (IntegerText(y) + "-W" + a)[i] != 'W'
  {
    var s := IntegerText(y);
    assert forall c <- s :: c != 'W';
    forall i | 0 <= i <= |s| ensures (s + "-W" + a)[i] != 'W' {
      assert i < |s| ==> s[i] in s;
    }
  }

  lemma SplitAtW(y: int, z: int, a: string, b: string)
    requires IntegerText(y) + "-W" + a == IntegerText(z) + "-W" + b
    ensures |IntegerText(y)| == |IntegerText(z)|
  {
    hide IntegerText;
    FirstLetter(y, a);
    FirstLetter(z, b);
  }

  lemma WeekTextIsInjective(k: int, l: int)
    requires WeekText(7 * k) == WeekText(7 * l)
    ensures k == l
  {
    hide YearFromDay, IntegerText, PadTwo, DateUtc;
    var y, z := YearFromDay(7 * k), YearFromDay(7 * l);
    var a, b := PadTwo(IntegerText(WeekNumber(7 * k))), PadTwo(IntegerText(WeekNumber(7 * l)));
    SplitAtW(y, z, a, b);
    assert WeekText(7 * k) == IntegerText(y) + ("-W" + a) && WeekText(7 * l) == IntegerText(z) + ("-W" + b);
    YearPart(y, z, "-W" + a, "-W" + b);
    assert ("-W" + a)[2..] == a && ("-W" + b)[2..] == b;
    PaddedTextIsInjective(WeekNumber(7 * k), WeekNumber(7 * l));
  }

  /** Different buckets never share a label, in any year whatever. */
  lemma LabelsAreInjective(period: Period, k: int, l: int)
    requires LabelOf(period, k) == LabelOf(period, l)
    ensures k == l
  {
    hide FormatDaily, FormatMonthly, WeekText, IntegerText, MonthStart, YearFromDay, MonthFromDay, DateFromDay;
    match period
    case Daily => DailyIsInjective(k, l);
    case Weekly => WeekTextIsInjective(k, l);
    case Monthly =>
      MonthlyIsInjective(MonthStart(k), MonthStart(l));
      FirstHasFields(k);
      FirstHasFields(l);
    case Yearly => IntegerTextIsInjective(k, l);
  }

  /** Two moments get the same label exactly when they fall in the same bucket. */
  lemma SameLabelSameBucket(period: Period, ms: int, ms': int)
    ensures BucketLabel(ms, period) == BucketLabel(ms', period) <==>
            BucketOf(period, DayOfInstant(ms)) == BucketOf(period, DayOfInstant(ms'))
  {
    hide BucketLabel, LabelOf, BucketOf;
    LabelIsOfBucket(ms, period);
    LabelIsOfBucket(ms', period);
    if BucketLabel(ms, period) == BucketLabel(ms', period) {
      LabelsAreInjective(period, BucketOf(period, DayOfInstant(ms)), BucketOf(period, DayOfInstant(ms')));
    }
  }

  // ----- Week starts

  /** How far a day is into its Monday-to-Sunday week. */
  function SinceMonday(d: int): (n: int)
    ensures 0 <= n < 7 && d - n == 7 * WeekIndex(d) - 3
  {
    (d + 3) % 7
  }

  lemma WeekStartRollsBack(d: int)
    ensures ToWeekStart(d) == ThroughUtc(d) - SinceMonday(d)
  {
    hide SetUtcDate, DateFromDay, ThroughUtc, WeekDay;
    SetDateMoves(ThroughUtc(d), DateFromDay(ThroughUtc(d)) + (if WeekDay(d) == 0 then -6 else 1 - WeekDay(d)));
    WeekDayIs(d);
  }

  lemma WeekDayIs(d: int)
    ensures SinceMonday(d) == if WeekDay(d) == 0 then 6 else WeekDay(d) - 1
  {
  }

  lemma SameWeekBack(d: int, n: int)
    requires 0 <= n < 7
    ensures WeekIndex(d - n) == WeekIndex(d) <==> n <= SinceMonday(d)
  {
  }

  lemma WeekStartIsMonday(d: int)
    requires !(0 <= YearFromDay(d) <= 99)
    ensures ToWeekStart(d) == 7 * WeekIndex(d) - 3
    ensures WeekDay(ToWeekStart(d)) == 1 && WeekIndex(ToWeekStart(d)) == WeekIndex(d)
  {
    hide ToWeekStart, YearFromDay, ThroughUtc;
    ThroughUtcIs(d);
    WeekStartRollsBack(d);
    SameWeekBack(d, SinceMonday(d));
    WeekDayIs(d - SinceMonday(d));
  }

  /** The label of a week's Monday is that of every moment of the week, exactly when that Monday is not misread. */
  lemma PlainWeekStartHasWeekLabel(d: int)
    requires !(0 <= YearFromDay(d) <= 99)
    ensures FormatWeekly(ToWeekStart(d)) == FormatWeekly(d) <==> !(0 <= YearFromDay(ToWeekStart(d)) <= 99)
  {
    hide YearFromDay, ThroughUtc, FormatWeekly, ToWeekStart, WeekText, WeekDay;
    var monday := ToWeekStart(d);
    WeekStartIsMonday(d);
    ThroughUtcIs(d);
    ThroughUtcIs(monday);
    WeekLabelIsOfWeek(d);
    WeekLabelIsOfWeek(monday);
    if 0 <= YearFromDay(monday) <= 99 {
      CenturiesApart(monday, ThroughUtc(monday));
      if FormatWeekly(monday) == FormatWeekly(d) {
        WeekTextIsInjective(WeekIndex(ThroughUtc(monday)), WeekIndex(d));
      }
    }
  }

  /**
   * A day of the years 0 to 99 is moved to the twentieth century but rolled back by its own weekday, so the result
   * stays in the week it was moved to exactly when that weekday comes no later than the new one.
   */
  lemma MisreadWeekStart(d: int)
    requires 0 <= YearFromDay(d) <= 99
    ensures FormatWeekly(ToWeekStart(d)) == FormatWeekly(d) <==> SinceMonday(d) <= SinceMonday(ThroughUtc(d))
  {
    hide YearFromDay, ThroughUtc, FormatWeekly, ToWeekStart, WeekText, WeekIndex, SinceMonday;
    var e, start := ThroughUtc(d), ToWeekStart(d);
    WeekStartRollsBack(d);
    ThroughUtcIs(d);
    NearDay(e, start);
    ThroughUtcIs(start);
    WeekLabelIsOfWeek(d);
    WeekLabelIsOfWeek(start);
    SameWeekBack(e, SinceMonday(d));
    if FormatWeekly(start) == FormatWeekly(d) {
      WeekTextIsInjective(WeekIndex(start), WeekIndex(e));
    }
  }

  lemma NearDay(d: int, e: int)
    requires 1900 <= YearFromDay(d) <= 1999 && d - 7 < e <= d
    ensures YearFromDay(e) >= 100
  {
    hide YearFromDay, DayFromYear;
    if YearFromDay(e) < 100 {
      YearsAscend(YearFromDay(e) + 1, 1890);
      YearsAscend(1890, YearFromDay(d));
    }
  }

  /** `formatWeekly(toWeekStart(d))` against the weekly label of any moment of d's day, for every day there is. */
  lemma WeekStartHasWeekLabel(ms: int)
    ensures var d := DayOfInstant(ms);
            FormatWeekly(ToWeekStart(d)) == BucketLabel(ms, Weekly) <==>
            if 0 <= YearFromDay(d) <= 99 then SinceMonday(d) <= SinceMonday(ThroughUtc(d))
            else !(0 <= YearFromDay(d - SinceMonday(d)) <= 99)
  {
    hide YearFromDay, ThroughUtc, FormatWeekly, ToWeekStart, SinceMonday;
    var d := DayOfInstant(ms);
    if 0 <= YearFromDay(d) <= 99 {
      MisreadWeekStart(d);
    } else {
      PlainWeekStartHasWeekLabel(d);
      WeekStartRollsBack(d);
      ThroughUtcIs(d);
    }
  }

  lemma CenturiesApart(d: int, e: int)
    requires 0 <= YearFromDay(d) <= 99 && 1900 <= YearFromDay(e) <= 1999
    ensures WeekIndex(d) + 50 < WeekIndex(e)
  {
    hide DayFromYear, YearFromDay;
    YearsAscend(YearFromDay(d) + 1, 1890);
    YearsAscend(1890, 1891);
    YearsAscend(1891, YearFromDay(e));
  }

  /** Outside the years 0 to 99: two moments share a weekly label exactly when their weeks begin on the same Monday. */
  lemma SameWeekSameLabel(ms: int, ms': int)
    requires !(0 <= YearFromDay(DayOfInstant(ms)) <= 99) && !(0 <= YearFromDay(DayOfInstant(ms')) <= 99)
    ensures BucketLabel(ms, Weekly) == BucketLabel(ms', Weekly) <==>
            DayOfInstant(ms) - SinceMonday(DayOfInstant(ms)) == DayOfInstant(ms') - SinceMonday(DayOfInstant(ms'))
  {
    hide BucketLabel, YearFromDay, ThroughUtc;
    ThroughUtcIs(DayOfInstant(ms));
    ThroughUtcIs(DayOfInstant(ms'));
    SameLabelSameBucket(Weekly, ms, ms');
  }

  // ----- Labels sort in the order of their buckets

  /** Week numbers run from 1 to 53, wherever the year is not mistaken for one of the twentieth century. */
  lemma WeekNumberRange(k: int)
    requires !(0 <= YearFromDay(7 * k) <= 99)
    ensures 1 <= WeekNumber(7 * k) <= 53
  {
    hide DayFromYear, YearFromDay;
    var y := YearFromDay(7 * k);
    YearsAdjoin(y);
    FourthOfJanuary(y);
  }

  lemma FourthOfJanuary(y: int)
    requires !(0 <= y <= 99)
    ensures DateUtc(y, 0, 4) == DayFromYear(y) + 3
  {
    hide DayFromYear;
  }

  ghost function YearOf(period: Period, k: int): int {
    match period
    case Daily => YearFromDay(k)
    case Weekly => YearFromDay(7 * k)
    case Monthly => k / 12
    case Yearly => k
  }

  lemma YearsFollowDays(d: int, e: int)
    requires d <= e
    ensures YearFromDay(d) <= YearFromDay(e)
  {
    hide DayFromYear, YearFromDay;
    if YearFromDay(e) + 1 < YearFromDay(d) {
      YearsAscend(YearFromDay(e) + 1, YearFromDay(d));
    }
  }

  lemma YearTextsSort(y: int, z: int, a: string, b: string)
    requires 1000 <= y <= z <= 9999
    requires y == z ==> Before(a, b)
    ensures Before(IntegerText(y) + a, IntegerText(z) + b)
  {
    hide IntegerText;
    if y < z {
      YearsSort(y, z);
      BeforeByPrefix(IntegerText(y), IntegerText(z), a, b);
    } else {
      BeforeBySuffix(IntegerText(y), a, b);
    }
  }

  lemma WeeksSort(k: int, l: int)
    requires k < l && 1000 <= YearFromDay(7 * k) && YearFromDay(7 * l) <= 9999
    ensures Before(WeekText(7 * k), WeekText(7 * l))
  {
    hide YearFromDay, IntegerText, PadTwo, DateUtc, DayFromYear;
    var y, z := YearFromDay(7 * k), YearFromDay(7 * l);
    YearsFollowDays(7 * k, 7 * l);
    WeekNumberRange(k);
    WeekNumberRange(l);
    var a, b := WeekNumber(7 * k), WeekNumber(7 * l);
    if y == z {
      WeekNumbersAscend(7 * k, 7 * l, DateUtc(y, 0, 4));
      PaddedNumbersSort(a, b);
      BeforeBySuffix("-W", PadTwo(IntegerText(a)), PadTwo(IntegerText(b)));
    }
    assert WeekText(7 * k) == IntegerText(y) + ("-W" + PadTwo(IntegerText(a)));
    assert WeekText(7 * l) == IntegerText(z) + ("-W" + PadTwo(IntegerText(b)));
    YearTextsSort(y, z, "-W" + PadTwo(IntegerText(a)), "-W" + PadTwo(IntegerText(b)));
  }

  lemma WeekNumbersAscend(t: int, u: int, anchor: int)
    requires t + 7 <= u
    ensures CeilSevenths(t - anchor) < CeilSevenths(u - anchor)
  {
  }

  lemma MonthsSort(d: int, e: int)
    requires MonthIndex(d) < MonthIndex(e) && 1000 <= YearFromDay(d) && YearFromDay(e) <= 9999
    ensures Before(FormatMonthly(d), FormatMonthly(e))
  {
    hide YearFromDay, MonthFromDay, IntegerText, PadTwo;
    var y, z, m, n := YearFromDay(d), YearFromDay(e), MonthFromDay(d) + 1, MonthFromDay(e) + 1;
    var a, b := "-" + PadTwo(IntegerText(m)), "-" + PadTwo(IntegerText(n));
    if y == z {
      PaddedNumbersSort(m, n);
      BeforeBySuffix("-", PadTwo(IntegerText(m)), PadTwo(IntegerText(n)));
    }
    assert FormatMonthly(d) == IntegerText(y) + a && FormatMonthly(e) == IntegerText(z) + b;
    YearTextsSort(y, z, a, b);
  }

  lemma MonthsFollowDays(d: int, e: int)
    requires d <= e
    ensures MonthIndex(d) <= MonthIndex(e)
  {
    hide MonthIndex, MonthStart;
    DayIsInItsMonth(d);
    DayIsInItsMonth(e);
    if MonthIndex(e) + 1 < MonthIndex(d) {
      MonthsAscend(MonthIndex(e) + 1, MonthIndex(d));
    }
  }

  lemma DatesFollowDays(d: int, e: int)
    requires d < e && MonthIndex(d) == MonthIndex(e)
    ensures YearFromDay(d) == YearFromDay(e) && DateFromDay(d) < DateFromDay(e)
  {
    hide YearFromDay, MonthFromDay, DaysBeforeMonth, DayFromYear;
  }

  lemma DaysSort(d: int, e: int)
    requires d < e && 1000 <= YearFromDay(d) && YearFromDay(e) <= 9999
    ensures Before(FormatDaily(d), FormatDaily(e))
  {
    hide YearFromDay, DateFromDay, IntegerText, PadTwo, FormatMonthly, MonthIndex;
    var s, t := "-" + PadTwo(IntegerText(DateFromDay(d))), "-" + PadTwo(IntegerText(DateFromDay(e)));
    DailyIsMonthlyAndDate(d);
    DailyIsMonthlyAndDate(e);
    MonthsFollowDays(d, e);
    if MonthIndex(d) < MonthIndex(e) {
      MonthsSort(d, e);
      FourDigitMonths(d);
      FourDigitMonths(e);
      YearsFollowDays(d, e);
      BeforeByPrefix(FormatMonthly(d), FormatMonthly(e), s, t);
    } else {
      DatesFollowDays(d, e);
      PaddedNumbersSort(DateFromDay(d), DateFromDay(e));
      BeforeBySuffix("-", PadTwo(IntegerText(DateFromDay(d))), PadTwo(IntegerText(DateFromDay(e))));
      SameMonthSameText(d, e);
      BeforeBySuffix(FormatMonthly(d), s, t);
    }
  }

  lemma DailyIsMonthlyAndDate(d: int)
    ensures FormatDaily(d) == FormatMonthly(d) + ("-" + PadTwo(IntegerText(DateFromDay(d))))
  {
    hide YearFromDay, MonthFromDay, DateFromDay, IntegerText, PadTwo;
  }

  lemma FourDigitMonths(d: int)
    requires 1000 <= YearFromDay(d) <= 9999
    ensures |FormatMonthly(d)| == 7
  {
    hide YearFromDay, MonthFromDay, IntegerText, PadTwo;
    FourDigits(YearFromDay(d));
    FieldLength(MonthFromDay(d) + 1);
  }

  lemma SameMonthSameText(d: int, e: int)
    requires MonthIndex(d) == MonthIndex(e)
    ensures FormatMonthly(d) == FormatMonthly(e)
  {
    hide YearFromDay, MonthFromDay, IntegerText, PadTwo;
  }

  /** In four-digit years, for every period, labels sort as text in the order of their buckets. */
  lemma LabelsSort(period: Period, k: int, l: int)
    requires k < l && 1000 <= YearOf(period, k) && YearOf(period, l) <= 9999
    ensures Before(LabelOf(period, k), LabelOf(period, l))
  {
    hide FormatDaily, FormatMonthly, WeekText, IntegerText, MonthStart, YearFromDay, MonthFromDay;
    match period
    case Daily => DaysSort(k, l);
    case Weekly => WeeksSort(k, l);
    case Monthly =>
      FirstHasFields(k);
      FirstHasFields(l);
      MonthsSort(MonthStart(k), MonthStart(l));
    case Yearly => YearsSort(k, l);
  }
}
