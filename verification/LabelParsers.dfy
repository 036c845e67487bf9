/** The chart's parsers for the trend's labels. */
module LabelParsers {
  import opened Transactions
  import opened Text
  import opened UtcCalendar
  import opened PeriodLabels
  import opened RevenueTrend
  import opened IsoWeeks

  /** `/^(\d{4})-(\d{2})$/`. */
  predicate MatchesMonth(s: string) {
    |s| == 7 && AllDigits(s[..4]) && s[4] == '-' && AllDigits(s[5..7])
  }

  /** `/^(\d{4})-(\d{2})-(\d{2})$/`. */
  predicate MatchesDay(s: string) {
    |s| == 10 && MatchesMonth(s[..7]) && s[7] == '-' && AllDigits(s[8..])
  }

  function ParseDaily(s: string): Option<int> {
    if MatchesDay(s) then Some(DateUtc(NumeralValue(s[..4]), NumeralValue(s[5..7]) - 1, NumeralValue(s[8..])))
    else None
  }

  function ParseMonthly(s: string): Option<int> {
    if MatchesMonth(s) then Some(DateUtc(NumeralValue(s[..4]), NumeralValue(s[5..7]) - 1, 1))
    else None
  }

  lemma TwoDigitField(n: nat)
    requires n < 100
    ensures |PadTwo(IntegerText(n))| == 2 && AllDigits(PadTwo(IntegerText(n)))
    ensures NumeralValue(PadTwo(IntegerText(n))) == n
  {
    TwoDigits(n);
  }

  lemma MonthText(d: int)
    requires 1000 <= YearFromDay(d) <= 9999
    ensures var s := FormatMonthly(d);
            && MatchesMonth(s)
            && NumeralValue(s[..4]) == YearFromDay(d) && NumeralValue(s[5..7]) == MonthFromDay(d) + 1
  {
    hide YearFromDay, MonthFromDay, IntegerText, PadTwo, AllDigits, NumeralValue;
    var s, y, m := FormatMonthly(d), IntegerText(YearFromDay(d)), PadTwo(IntegerText(MonthFromDay(d) + 1));
    FourDigits(YearFromDay(d));
    TwoDigitField(MonthFromDay(d) + 1);
    assert s == y + "-" + m;
    assert s[..4] == y && s[5..7] == m;
    YearReads(YearFromDay(d));
  }

  lemma YearReads(y: nat)
    ensures NumeralValue(IntegerText(y)) == y
  {
    NumeralRoundTrip(y);
  }

  lemma NoMonthText(d: int)
    requires !(1000 <= YearFromDay(d) <= 9999)
    ensures !MatchesMonth(FormatMonthly(d))
  {
    hide YearFromDay, MonthFromDay, IntegerText, PadTwo, AllDigits;
    var s, y, m := FormatMonthly(d), IntegerText(YearFromDay(d)), PadTwo(IntegerText(MonthFromDay(d) + 1));
    FourDigits(YearFromDay(d));
    TwoDigitField(MonthFromDay(d) + 1);
    assert s == y + "-" + m;
    if |s| == 7 {
      assert s[..4] == y;
    }
  }

  lemma DayText(d: int)
    ensures var s := FormatDaily(d);
            && |s| == |FormatMonthly(d)| + 3 && s[..|s| - 3] == FormatMonthly(d) && s[|s| - 3] == '-'
            && AllDigits(s[|s| - 2..]) && NumeralValue(s[|s| - 2..]) == DateFromDay(d)
  {
    hide FormatMonthly, FormatDaily, DateFromDay, IntegerText, PadTwo, AllDigits, NumeralValue;
    var s, a := FormatMonthly(d), PadTwo(IntegerText(DateFromDay(d)));
    DailyIsMonthlyAndDate(d);
    TwoDigitField(DateFromDay(d));
    var r := FormatDaily(d);
    assert r == s + ("-" + a);
    assert r[..|s|] == s && r[|s| + 1..] == a;
  }

  /** A daily label parses back to its day exactly in the years 1000 to 9999; any other is refused. */
  lemma DailyRoundTrip(d: int)
    ensures ParseDaily(FormatDaily(d)) == if 1000 <= YearFromDay(d) <= 9999 then Some(d) else None
  {
    hide YearFromDay, MonthFromDay, DateFromDay, FormatDaily, FormatMonthly, MatchesMonth, AllDigits, NumeralValue, MakeDay;
    var s := FormatDaily(d);
    DayText(d);
    if 1000 <= YearFromDay(d) <= 9999 {
      MonthText(d);
      FourDigitMonths(d);
      assert s[..7][..4] == s[..4] && s[..7][5..7] == s[5..7];
      FieldsMakeDay(d);
    } else {
      NoMonthText(d);
    }
  }

  /** A monthly label parses to the first of its month exactly in the years 1000 to 9999; any other is refused. */
  lemma MonthlyRoundTrip(d: int)
    ensures ParseMonthly(FormatMonthly(d)) ==
            if 1000 <= YearFromDay(d) <= 9999 then Some(MonthStart(MonthIndex(d))) else None
  {
    hide YearFromDay, MonthFromDay, FormatMonthly, MatchesMonth, NumeralValue, MakeDay, MonthStart;
    if 1000 <= YearFromDay(d) <= 9999 {
      MonthText(d);
      MakeFirst(YearFromDay(d), MonthFromDay(d));
    } else {
      NoMonthText(d);
    }
  }

  /** On the labels that the trend generates in those years, the printers undo the parsers. */
  lemma PrintersUndoParsers(labels: seq<string>, period: Period, today: int, i: nat)
    requires IsWindow(labels, period, today) && i < |labels|
    requires 1000 <= YearOf(period, FirstBucket(period, today) + i) <= 9999
    ensures period == Daily ==> ParseDaily(labels[i]).Some? && FormatDaily(ParseDaily(labels[i]).value) == labels[i]
    ensures period == Monthly ==> ParseMonthly(labels[i]).Some? && FormatMonthly(ParseMonthly(labels[i]).value) == labels[i]
  {
    hide YearFromDay, MonthFromDay, FormatDaily, FormatMonthly, MonthStart, FirstBucket, ParseDaily, ParseMonthly, WeekText;
    var k := FirstBucket(period, today) + i;
    if period == Daily {
      DailyRoundTrip(k);
    } else if period == Monthly {
      FirstHasFields(k);
      MonthlyRoundTrip(MonthStart(k));
      assert 12 * (k / 12) + k % 12 == k;
    }
  }

  // ----- What labels and parsers read, digit by digit

  function DigitAt(s: string, i: nat): int
    requires i < |s|
  {
    s[i] as int - 48
  }

  predicate IsDigitAt(s: string, i: nat)
    requires i < |s|
  {
    48 <= s[i] as int <= 57
  }

  lemma TwoRead(s: string)
    requires |s| == 2
    ensures NumeralValue(s) == 10 * DigitAt(s, 0) + DigitAt(s, 1)
    ensures AllDigits(s) <==> IsDigitAt(s, 0) && IsDigitAt(s, 1)
  {
    assert NumeralValue(s[..1]) == DigitAt(s, 0) by { assert s[..1][..0] == []; }
    assert s[0] in s && s[1] in s;
  }

  lemma FourRead(s: string)
    requires |s| == 4
    ensures NumeralValue(s) == 1000 * DigitAt(s, 0) + 100 * DigitAt(s, 1) + 10 * DigitAt(s, 2) + DigitAt(s, 3)
    ensures AllDigits(s) <==> IsDigitAt(s, 0) && IsDigitAt(s, 1) && IsDigitAt(s, 2) && IsDigitAt(s, 3)
  {
    assert s[..3][..2] == s[..2];
    TwoRead(s[..2]);
    assert s[0] in s && s[1] in s && s[2] in s && s[3] in s;
  }

  /** Year, dash, month, in digits. */
  predicate ReadsMonth(s: string, y: int, m: int) {
    && |s| == 7 && s[4] == '-'
    && IsDigitAt(s, 0) && IsDigitAt(s, 1) && IsDigitAt(s, 2) && IsDigitAt(s, 3) && IsDigitAt(s, 5) && IsDigitAt(s, 6)
    && y == 1000 * DigitAt(s, 0) + 100 * DigitAt(s, 1) + 10 * DigitAt(s, 2) + DigitAt(s, 3)
    && m == 10 * DigitAt(s, 5) + DigitAt(s, 6)
  }

  predicate ReadsDay(s: string, y: int, m: int, n: int) {
    && |s| == 10 && ReadsMonth(s[..7], y, m) && s[7] == '-' && IsDigitAt(s, 8) && IsDigitAt(s, 9)
    && n == 10 * DigitAt(s, 8) + DigitAt(s, 9)
  }

  lemma MonthReads(s: string)
    ensures MatchesMonth(s) ==> ReadsMonth(s, NumeralValue(s[..4]), NumeralValue(s[5..7]))
    ensures forall y, m :: ReadsMonth(s, y, m) ==> MatchesMonth(s) && y == NumeralValue(s[..4]) && m == NumeralValue(s[5..7])
  {
    hide NumeralValue, AllDigits;
    if |s| == 7 {
      FourRead(s[..4]);
      TwoRead(s[5..7]);
    }
  }

  lemma DayReads(s: string)
    ensures MatchesDay(s) ==> ReadsDay(s, NumeralValue(s[..4]), NumeralValue(s[5..7]), NumeralValue(s[8..]))
    ensures forall y, m, n :: ReadsDay(s, y, m, n) ==>
              MatchesDay(s) && y == NumeralValue(s[..4]) && m == NumeralValue(s[5..7]) && n == NumeralValue(s[8..])
  {
    hide NumeralValue, AllDigits, ReadsMonth, MatchesMonth;
    if |s| == 10 {
      MonthReads(s[..7]);
      TwoRead(s[8..]);
      assert s[..7][..4] == s[..4] && s[..7][5..7] == s[5..7];
    }
  }

  /** In the years 1000 to 9999 the labels are the day's own year, month and date in digits. */
  lemma LabelsRead(ms: int)
    requires 1000 <= YearFromDay(DayOfInstant(ms)) <= 9999
    ensures var d := DayOfInstant(ms);
            && ReadsDay(BucketLabel(ms, Daily), YearFromDay(d), MonthFromDay(d) + 1, DateFromDay(d))
            && ReadsMonth(BucketLabel(ms, Monthly), YearFromDay(d), MonthFromDay(d) + 1)
            && ReadsMonth(BucketLabel(ms, Yearly) + "-00", YearFromDay(d), 0)
  {
    hide YearFromDay, MonthFromDay, DateFromDay, FormatDaily, FormatMonthly, MatchesMonth, AllDigits, NumeralValue, ReadsMonth, IntegerText;
    var d := DayOfInstant(ms);
    MonthText(d);
    MonthReads(FormatMonthly(d));
    FourDigitMonths(d);
    DayText(d);
    var s := FormatDaily(d);
    assert s[..7][..4] == s[..4] && s[..7][5..7] == s[5..7];
    DayReads(s);
    YearTextReads(YearFromDay(d));
  }

  lemma YearTextReads(y: int)
    requires 1000 <= y <= 9999
    ensures ReadsMonth(IntegerText(y) + "-00", y, 0)
  {
    hide IntegerText, NumeralValue, AllDigits;
    FourDigits(y);
    FourRead(IntegerText(y));
    YearReads(y);
  }

  /** The weekly label in digits: the week-year, and the week number it shows. */
  lemma WeeklyLabelReads(ms: int, y: int)
    requires InIsoYear(DayOfInstant(ms), y) && 1000 <= y <= 9999
    ensures var s := BucketLabel(ms, Weekly);
            && |s| == 8 && s[5] == 'W'
            && ReadsMonth(s[..5] + s[6..], y, IsoWeek(DayOfInstant(ms), y) + if BeginsLate(y) then 1 else 0)
  {
    hide YearFromDay, IntegerText, PadTwo, IsoWeek, BeginsLate, InIsoYear, FormatWeekly, NumeralValue, AllDigits, FirstThursday, DayFromYear, WeekDay;
    var d := DayOfInstant(ms);
    var week := IsoWeek(d, y) + if BeginsLate(y) then 1 else 0;
    ThursdayYearIsIsoYear(d, y);
    NearYears(d);
    WeekLabelAgainstIso(d, y);
    WeekTextReads(y, week);
  }

  lemma WeekTextReads(y: int, week: int)
    requires 1000 <= y <= 9999 && 1 <= week <= 53
    ensures var s := IsoText(y, week); |s| == 8 && s[5] == 'W' && ReadsMonth(s[..5] + s[6..], y, week)
  {
    hide IntegerText, PadTwo, NumeralValue, AllDigits;
    FourDigits(y);
    FourRead(IntegerText(y));
    YearReads(y);
    TwoDigitField(week);
    TwoRead(PadTwo(IntegerText(week)));
    var s := IsoText(y, week);
    assert s[..4] == IntegerText(y) && s[6..] == PadTwo(IntegerText(week));
  }

  /** `parseDaily` accepts exactly four, two and two digits with dashes between, and lets odd months and dates carry over. */
  lemma ParseDailyReads(s: string)
    ensures ParseDaily(s).Some? <==> exists y, m, n :: ReadsDay(s, y, m, n)
    ensures forall y, m, n | ReadsDay(s, y, m, n) ::
              ParseDaily(s) == Some(MonthStart(12 * (if y <= 99 then 1900 + y else y) + m - 1) + n - 1)
  {
    hide ReadsDay, NumeralValue, MonthStart, DateUtc, AllDigits;
    DayReads(s);
    if MatchesDay(s) {
      DateUtcCounts(NumeralValue(s[..4]), NumeralValue(s[5..7]) - 1, NumeralValue(s[8..]));
      YearsAreNotNegative(s);
    }
  }

  lemma YearsAreNotNegative(s: string)
    ensures forall y, m, n :: ReadsDay(s, y, m, n) ==> y >= 0
    ensures forall y, m :: ReadsMonth(s, y, m) ==> y >= 0
  {
  }

  lemma ParseMonthlyReads(s: string)
    ensures ParseMonthly(s).Some? <==> exists y, m :: ReadsMonth(s, y, m)
    ensures forall y, m | ReadsMonth(s, y, m) ::
              ParseMonthly(s) == Some(MonthStart(12 * (if y <= 99 then 1900 + y else y) + m - 1))
  {
    hide ReadsMonth, NumeralValue, MonthStart, DateUtc, AllDigits;
    MonthReads(s);
    if MatchesMonth(s) {
      DateUtcCounts(NumeralValue(s[..4]), NumeralValue(s[5..7]) - 1, 1);
      YearsAreNotNegative(s);
    }
  }
}
