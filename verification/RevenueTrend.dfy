/** The revenue trend: the window of labels for a moment, and the completed amounts that fall into it. */
module RevenueTrend {
  import opened Transactions
  import opened Text
  import opened UtcCalendar
  import opened PeriodLabels
  import Aggregations

  datatype PeriodBucket = PeriodBucket(text: string, value: real)

  // ----- The window

  function Length(period: Period): nat {
    match period
    case Daily => 7
    case Weekly => 12
    case Monthly => 12
    case Yearly => 5
  }

  /** The number of the window's first bucket: this week's Sunday, 11 weeks or months back, or 4 years back. */
  function FirstBucket(period: Period, today: int): int {
    match period
    case Daily => today - WeekDay(today)
    case Weekly => WeekIndex(today) - 11
    case Monthly => MonthIndex(today) - 11
    case Yearly => YearFromDay(today) - 4
  }

  /** The labels of consecutive buckets, oldest first. */
  ghost predicate IsWindow(labels: seq<string>, period: Period, today: int) {
    && |labels| == Length(period)
    && forall i | 0 <= i < |labels| :: labels[i] == LabelOf(period, FirstBucket(period, today) + i)
  }

  /**
   * The clocks for which the window is the one it should be. `Date.UTC` reads a year from 0 to 99 as one of the
   * twentieth century, so neither today nor, in the weekly window, its oldest Monday may lie there.
   */
  ghost predicate ClockIsPlain(period: Period, today: int) {
    && !(0 <= YearFromDay(today) <= 99)
    && (period == Weekly ==> !(0 <= YearFromDay(7 * FirstBucket(Weekly, today) - 3) <= 99))
  }

  method DailyLabels(utcNow: int) returns (labels: seq<string>)
    ensures IsWindow(labels, Daily, utcNow)
  {
    labels := [];
    var dayOfWeek := WeekDay(utcNow);
    var sunday := SetUtcDate(utcNow, DateFromDay(utcNow) - dayOfWeek);
    SetDateMoves(utcNow, DateFromDay(utcNow) - dayOfWeek);
    hide SetUtcDate, DateFromDay, FormatDaily;
    for i := 0 to 7
      invariant |labels| == i
      invariant forall j | 0 <= j < i :: labels[j] == FormatDaily(sunday + j)
    {
      var d := SetUtcDate(sunday, DateFromDay(sunday) + i);
      SetDateMoves(sunday, DateFromDay(sunday) + i);
      labels := labels + [FormatDaily(d)];
    }
  }

  method WeeklyLabels(utcNow: int) returns (labels: seq<string>)
    requires !(0 <= YearFromDay(utcNow) <= 99)
    ensures AreMondayLabels(labels, utcNow)
  {
    hide ToWeekStart, SetUtcDate, DateFromDay, FormatWeekly, YearFromDay, WeekIndex, WeekDay;
    labels := [];
    var currentWeekStart := ToWeekStart(utcNow);
    WeekStartIsMonday(utcNow);
    var i := 11;
    while i >= 0
      invariant -1 <= i <= 11 && |labels| == 11 - i
      invariant forall j | 0 <= j < 11 - i :: labels[j] == FormatWeekly(7 * (WeekIndex(utcNow) - 11 + j) - 3)
    {
      var w := SetUtcDate(currentWeekStart, DateFromDay(currentWeekStart) - i * 7);
      SetDateMoves(currentWeekStart, DateFromDay(currentWeekStart) - i * 7);
      labels := labels + [FormatWeekly(w)];
      i := i - 1;
    }
  }

  /** The weekly labels of twelve consecutive Mondays, the last one that of `utcNow`'s week. */
  ghost predicate AreMondayLabels(labels: seq<string>, utcNow: int) {
    |labels| == 12 && forall j | 0 <= j < 12 :: labels[j] == FormatWeekly(7 * (WeekIndex(utcNow) - 11 + j) - 3)
  }

  lemma MonthsBack(d: int, i: int)
    requires !(0 <= YearFromDay(d) <= 99)
    ensures DateUtc(YearFromDay(d), MonthFromDay(d) - i, 1) == MonthStart(MonthIndex(d) - i)
  {
    hide YearFromDay, MonthFromDay, MonthStart, MakeDay;
    MakeFirst(YearFromDay(d), MonthFromDay(d) - i);
  }

  method MonthlyLabels(utcNow: int) returns (labels: seq<string>)
    requires !(0 <= YearFromDay(utcNow) <= 99)
    ensures IsWindow(labels, Monthly, utcNow)
  {
    hide YearFromDay, MonthFromDay, FormatMonthly, MonthStart, DateUtc, MonthIndex;
    labels := [];
    var i := 11;
    while i >= 0
      invariant -1 <= i <= 11 && |labels| == 11 - i
      invariant forall j | 0 <= j < 11 - i :: labels[j] == FormatMonthly(MonthStart(MonthIndex(utcNow) - 11 + j))
    {
      var d := DateUtc(YearFromDay(utcNow), MonthFromDay(utcNow) - i, 1);
      MonthsBack(utcNow, i);
      labels := labels + [FormatMonthly(d)];
      i := i - 1;
    }
  }

  method YearlyLabels(utcNow: int) returns (labels: seq<string>)
    ensures IsWindow(labels, Yearly, utcNow)
  {
    labels := [];
    hide YearFromDay;
    var i := 4;
    while i >= 0
      invariant -1 <= i <= 4 && |labels| == 4 - i
      invariant forall j | 0 <= j < 4 - i :: labels[j] == IntegerText(YearFromDay(utcNow) - 4 + j)
    {
      var y := YearFromDay(utcNow) - i;
      labels := labels + [IntegerText(y)];
      i := i - 1;
    }
  }

  /** The labels for the clock reading `now` in milliseconds are the window of that day exactly for plain clocks. */
  method GeneratePeriodLabels(period: Period, now: int) returns (labels: seq<string>)
    ensures |labels| == match period { case Daily => 7 case Weekly => 12 case Monthly => 12 case Yearly => 5 }
    ensures IsWindow(labels, period, DayOfInstant(now)) <==> ClockIsPlain(period, DayOfInstant(now))
  {
    var today := DayOfInstant(now);
    var utcNow := DateUtc(YearFromDay(today), MonthFromDay(today), DateFromDay(today));
    assert utcNow == ThroughUtc(today);
    hide YearFromDay, ThroughUtc, IsWindow, ClockIsPlain;
    ThroughUtcIs(today);
    match period {
      case Daily => labels := DailyLabels(utcNow);
      case Weekly => labels := WeeklyLabels(utcNow);
      case Monthly => labels := MonthlyLabels(utcNow);
      case Yearly => labels := YearlyLabels(utcNow);
    }
    if period == Weekly {
      WeeklyWindowExactly(labels, today);
    } else {
      WindowOfReadDay(labels, period, today);
    }
  }

  lemma WindowDecidesBucket(labels: seq<string>, period: Period, today: int, i: nat, k: int)
    requires IsWindow(labels, period, today) && i < |labels| && labels[i] == LabelOf(period, k)
    ensures FirstBucket(period, today) + i == k
  {
    hide LabelOf, FirstBucket;
    LabelsAreInjective(period, FirstBucket(period, today) + i, k);
  }

  lemma ReadDayIsElsewhere(period: Period, today: int)
    requires 0 <= YearFromDay(today) <= 99 && period != Weekly
    ensures FirstBucket(period, ThroughUtc(today)) > FirstBucket(period, today)
  {
    hide YearFromDay, ThroughUtc, DayFromYear, MonthFromDay, WeekDay;
    ThroughUtcIs(today);
    CenturiesApart(today, ThroughUtc(today));
  }

  /** Daily, monthly and yearly windows are those of the day that `Date.UTC` makes of today. */
  lemma WindowOfReadDay(labels: seq<string>, period: Period, today: int)
    requires period != Weekly && IsWindow(labels, period, ThroughUtc(today))
    ensures |labels| == Length(period)
    ensures IsWindow(labels, period, today) <==> ClockIsPlain(period, today)
  {
    hide YearFromDay, ThroughUtc, FirstBucket, LabelOf;
    ThroughUtcIs(today);
    if 0 <= YearFromDay(today) <= 99 {
      ReadDayIsElsewhere(period, today);
      if IsWindow(labels, period, today) {
        WindowDecidesBucket(labels, period, today, 0, FirstBucket(period, ThroughUtc(today)));
      }
    }
  }

  lemma MondayLabel(k: int)
    ensures FormatWeekly(7 * k - 3) == LabelOf(Weekly, WeekIndex(ThroughUtc(7 * k - 3)))
    ensures !(0 <= YearFromDay(7 * k - 3) <= 99) <==> WeekIndex(ThroughUtc(7 * k - 3)) == k
  {
    hide YearFromDay, ThroughUtc, WeekText, FormatWeekly;
    WeekLabelIsOfWeek(7 * k - 3);
    ThroughUtcIs(7 * k - 3);
    if 0 <= YearFromDay(7 * k - 3) <= 99 {
      CenturiesApart(7 * k - 3, ThroughUtc(7 * k - 3));
    }
  }

  /** No century fits into twelve weeks. */
  lemma PlainInBetween(from: int, d: int, to: int)
    requires from <= d <= to <= from + 90
    requires !(0 <= YearFromDay(from) <= 99) && !(0 <= YearFromDay(to) <= 99)
    ensures !(0 <= YearFromDay(d) <= 99)
  {
    hide YearFromDay, DayFromYear;
    YearsFollowDays(from, d);
    YearsFollowDays(d, to);
    if YearFromDay(from) < 0 && 100 <= YearFromDay(to) {
      YearsAscend(YearFromDay(from) + 1, YearFromDay(to));
    }
  }

  lemma PlainMonday(today: int, j: nat)
    requires ClockIsPlain(Weekly, today) && j < 12
    ensures var k := WeekIndex(today) - 11 + j; FormatWeekly(7 * k - 3) == LabelOf(Weekly, k)
  {
    hide YearFromDay, ThroughUtc, FormatWeekly, LabelOf, WeekIndex;
    var first := WeekIndex(today) - 11;
    assert today - SinceMonday(today) == 7 * (first + 11) - 3;
    PlainInBetween(7 * first - 3, 7 * (first + j) - 3, today);
    MondayLabel(first + j);
  }

  lemma WeeklyWindowOfPlainDay(labels: seq<string>, today: int)
    requires AreMondayLabels(labels, today) && !(0 <= YearFromDay(today) <= 99)
    ensures IsWindow(labels, Weekly, today) <==> ClockIsPlain(Weekly, today)
  {
    hide YearFromDay, ThroughUtc, FormatWeekly, LabelOf, WeekIndex;
    var first := WeekIndex(today) - 11;
    if ClockIsPlain(Weekly, today) {
      forall j | 0 <= j < 12 ensures labels[j] == LabelOf(Weekly, first + j) {
        PlainMonday(today, j);
      }
    } else if IsWindow(labels, Weekly, today) {
      MondayLabel(first);
      WindowDecidesBucket(labels, Weekly, today, 0, WeekIndex(ThroughUtc(7 * first - 3)));
    }
  }

  lemma WeeklyWindowExactly(labels: seq<string>, today: int)
    requires AreMondayLabels(labels, ThroughUtc(today))
    ensures IsWindow(labels, Weekly, today) <==> ClockIsPlain(Weekly, today)
  {
    hide YearFromDay, ThroughUtc, FormatWeekly, LabelOf, WeekIndex;
    var utcNow := ThroughUtc(today);
    ThroughUtcIs(today);
    if !(0 <= YearFromDay(today) <= 99) {
      WeeklyWindowOfPlainDay(labels, today);
    } else if IsWindow(labels, Weekly, today) {
      NearDay(utcNow, utcNow - SinceMonday(utcNow));
      MondayLabel(WeekIndex(utcNow));
      WindowDecidesBucket(labels, Weekly, today, 11, WeekIndex(utcNow));
      CenturiesApart(today, utcNow);
    }
  }

  lemma WindowSorts(labels: seq<string>, period: Period, today: int, i: nat, j: nat)
    requires IsWindow(labels, period, today) && i < j < |labels|
    ensures labels[i] != labels[j]
    ensures var first := FirstBucket(period, today);
            1000 <= YearOf(period, first) && YearOf(period, first + Length(period) - 1) <= 9999 ==>
              Before(labels[i], labels[j])
  {
    hide LabelOf, YearOf, FirstBucket;
    var first := FirstBucket(period, today);
    var last := first + Length(period) - 1;
    if labels[i] == labels[j] {
      LabelsAreInjective(period, first + i, first + j);
    }
    YearsFollowBuckets(period, first, first + i);
    YearsFollowBuckets(period, first + j, last);
    if 1000 <= YearOf(period, first) && YearOf(period, last) <= 9999 {
      LabelsSort(period, first + i, first + j);
    }
  }

  /** Any window names no bucket twice, and in four-digit years it sorts as text from old to new. */
  lemma WindowIsInOrder(labels: seq<string>, period: Period, today: int)
    requires IsWindow(labels, period, today)
    ensures forall i, j | 0 <= i < j < |labels| :: labels[i] != labels[j]
    ensures var first := FirstBucket(period, today);
            1000 <= YearOf(period, first) && YearOf(period, first + Length(period) - 1) <= 9999 ==>
              forall i, j | 0 <= i < j < |labels| :: Before(labels[i], labels[j])
  {
    hide YearOf, FirstBucket, IsWindow;
    forall i, j | 0 <= i < j < |labels|
      ensures labels[i] != labels[j]
      ensures var first := FirstBucket(period, today);
              1000 <= YearOf(period, first) && YearOf(period, first + Length(period) - 1) <= 9999 ==>
                Before(labels[i], labels[j])
    {
      WindowSorts(labels, period, today, i, j);
    }
  }

  lemma YearsFollowBuckets(period: Period, k: int, l: int)
    requires k <= l
    ensures YearOf(period, k) <= YearOf(period, l)
  {
    hide YearFromDay;
    match period
    case Daily => YearsFollowDays(k, l);
    case Weekly => YearsFollowDays(7 * k, 7 * l);
    case _ =>
  }

  // ----- Which days a window covers

  function BucketStart(period: Period, k: int): int {
    match period
    case Daily => k
    case Weekly => 7 * k - 3
    case Monthly => MonthStart(k)
    case Yearly => DayFromYear(k)
  }

  /** The day as the label printer reads it: only the weekly label goes through `Date.UTC`. */
  function DayRead(period: Period, d: int): int {
    if period == Weekly then ThroughUtc(d) else d
  }

  lemma BucketStartsAt(period: Period, d: int, k: int)
    ensures k <= BucketOf(period, d) <==> BucketStart(period, k) <= DayRead(period, d)
  {
    hide DayFromYear, YearFromDay, MonthStart, MonthIndex, ThroughUtc;
    match period
    case Daily =>
    case Weekly =>
    case Monthly =>
      var m := MonthIndex(d);
      DayIsInItsMonth(d);
      if k < m { MonthsAscend(k, m); }
      if m + 1 < k { MonthsAscend(m + 1, k); }
    case Yearly =>
      var y := YearFromDay(d);
      if k < y { YearsAscend(k, y); }
      if y + 1 < k { YearsAscend(y + 1, k); }
  }

  /** From the first day of the first bucket to the day before the one after the last. */
  ghost predicate InWindow(period: Period, today: int, ms: int) {
    var first, d := FirstBucket(period, today), DayRead(period, DayOfInstant(ms));
    BucketStart(period, first) <= d < BucketStart(period, first + Length(period))
  }

  // ----- Summing

  function CompletedOnly(transactions: seq<Transaction>): (r: seq<Transaction>)
    ensures forall x :: x in r <==> x in transactions && x.status == Completed
  {
    if transactions == [] then [] else
      var last, rest := transactions[|transactions| - 1], CompletedOnly(transactions[..|transactions| - 1]);
      assert forall x :: x in transactions <==> x in transactions[..|transactions| - 1] || x == last;
      if last.status == Completed then rest + [last] else rest
  }

  /** The sum of the completed amounts whose transaction satisfies `p`. */
  ghost function CompletedSum(transactions: seq<Transaction>, p: Transaction -> bool): real {
    if transactions == [] then 0.0 else
      var last, rest := transactions[|transactions| - 1], CompletedSum(transactions[..|transactions| - 1], p);
      if last.status == Completed && p(last) then rest + last.amount else rest
  }

  ghost function HasLabel(period: Period, text: string): Transaction -> bool {
    (t: Transaction) => BucketLabel(t.timestamp, period) == text
  }

  ghost function BucketBetween(period: Period, from: int, to: int): Transaction -> bool {
    (t: Transaction) => from <= BucketOf(period, DayOfInstant(t.timestamp)) < to
  }

  ghost function FallsInWindow(period: Period, today: int): Transaction -> bool {
    (t: Transaction) => InWindow(period, today, t.timestamp)
  }

  ghost function Texts(series: seq<PeriodBucket>): seq<string> {
    seq(|series|, i requires 0 <= i < |series| => series[i].text)
  }

  ghost function TotalValue(buckets: seq<PeriodBucket>): real {
    if buckets == [] then 0.0 else TotalValue(buckets[..|buckets| - 1]) + buckets[|buckets| - 1].value
  }

  lemma {:induction false} SumOfCompleted(transactions: seq<Transaction>, p: Transaction -> bool)
    ensures CompletedSum(CompletedOnly(transactions), p) == CompletedSum(transactions, p)
  {
    if transactions != [] {
      var last, front := transactions[|transactions| - 1], transactions[..|transactions| - 1];
      SumOfCompleted(front, p);
      if last.status == Completed {
        var r := CompletedOnly(transactions);
        assert r[..|r| - 1] == CompletedOnly(front);
      }
    }
  }

  lemma {:induction false} SumOfNone(transactions: seq<Transaction>, p: Transaction -> bool)
    requires forall x <- transactions :: x.status == Completed ==> !p(x)
    ensures CompletedSum(transactions, p) == 0.0
  {
    if transactions != [] {
      SumOfNone(transactions[..|transactions| - 1], p);
    }
  }

  lemma {:induction false} SumOfUnion(transactions: seq<Transaction>, p: Transaction -> bool, q: Transaction -> bool, r: Transaction -> bool)
    requires forall x :: !(p(x) && q(x)) && (r(x) <==> p(x) || q(x))
    ensures CompletedSum(transactions, r) == CompletedSum(transactions, p) + CompletedSum(transactions, q)
  {
    if transactions != [] {
      SumOfUnion(transactions[..|transactions| - 1], p, q, r);
    }
  }

  lemma {:induction false} SumOfSame(transactions: seq<Transaction>, p: Transaction -> bool, q: Transaction -> bool)
    requires forall x :: p(x) <==> q(x)
    ensures CompletedSum(transactions, p) == CompletedSum(transactions, q)
  {
    if transactions != [] {
      SumOfSame(transactions[..|transactions| - 1], p, q);
    }
  }

  ghost function ValueOf(buckets: map<string, real>, text: string): real {
    if text in buckets then buckets[text] else 0.0
  }

  method SumByLabel(completed: seq<Transaction>, period: Period) returns (buckets: map<string, real>)
    requires forall x <- completed :: x.status == Completed
    ensures forall text :: ValueOf(buckets, text) == CompletedSum(completed, HasLabel(period, text))
  {
    hide BucketLabel;
    buckets := map[];
    for i := 0 to |completed|
      invariant forall text :: ValueOf(buckets, text) == CompletedSum(completed[..i], HasLabel(period, text))
    {
      var tx := completed[i];
      assert tx in completed && completed[..i + 1][..i] == completed[..i];
      var text := BucketLabel(tx.timestamp, period);
      ghost var before := buckets;
      buckets := buckets[text := (if text in buckets then buckets[text] else 0.0) + tx.amount];
      forall other ensures ValueOf(buckets, other) == CompletedSum(completed[..i + 1], HasLabel(period, other)) {
        assert ValueOf(before, other) == CompletedSum(completed[..i], HasLabel(period, other));
      }
    }
    assert completed[..|completed|] == completed;
  }

  // ----- Conservation

  /** Adding a bucket to a range adds exactly what carries that bucket's label. */
  lemma RangeGrows(transactions: seq<Transaction>, period: Period, from: int, to: int)
    requires from <= to
    ensures CompletedSum(transactions, BucketBetween(period, from, to + 1)) ==
            CompletedSum(transactions, BucketBetween(period, from, to)) +
            CompletedSum(transactions, HasLabel(period, LabelOf(period, to)))
  {
    var p, q, r := BucketBetween(period, from, to), HasLabel(period, LabelOf(period, to)), BucketBetween(period, from, to + 1);
    forall x: Transaction ensures !(p(x) && q(x)) && (r(x) <==> p(x) || q(x)) {
      LabelMeansBucket(period, x.timestamp, to);
    }
    SumOfUnion(transactions, p, q, r);
  }

  lemma LabelMeansBucket(period: Period, ms: int, k: int)
    ensures BucketLabel(ms, period) == LabelOf(period, k) <==> BucketOf(period, DayOfInstant(ms)) == k
  {
    hide BucketLabel, LabelOf, BucketOf;
    LabelIsOfBucket(ms, period);
    if BucketLabel(ms, period) == LabelOf(period, k) {
      LabelsAreInjective(period, BucketOf(period, DayOfInstant(ms)), k);
    }
  }

  lemma {:induction false} SeriesSum(transactions: seq<Transaction>, period: Period, first: int, series: seq<PeriodBucket>)
    requires forall i | 0 <= i < |series| :: series[i].text == LabelOf(period, first + i)
    requires forall i | 0 <= i < |series| :: series[i].value == CompletedSum(transactions, HasLabel(period, series[i].text))
    ensures TotalValue(series) == CompletedSum(transactions, BucketBetween(period, first, first + |series|))
  {
    hide LabelOf, BucketOf, HasLabel;
    if series == [] {
      SumOfNone(transactions, BucketBetween(period, first, first));
    } else {
      var n := |series| - 1;
      SeriesSum(transactions, period, first, series[..n]);
      RangeGrows(transactions, period, first, first + n);
    }
  }

  lemma WindowIsRange(period: Period, today: int, ms: int)
    ensures InWindow(period, today, ms) <==>
            FirstBucket(period, today) <= BucketOf(period, DayOfInstant(ms)) < FirstBucket(period, today) + Length(period)
  {
    hide BucketOf, BucketStart, FirstBucket, DayRead;
    var first := FirstBucket(period, today);
    BucketStartsAt(period, DayOfInstant(ms), first);
    BucketStartsAt(period, DayOfInstant(ms), first + Length(period));
  }

  /**
   * Conservation of revenue. For every list, period and day, a series with the window's labels and each
   * label's completed sum adds up to exactly the completed amounts whose day lies in the window.
   */
  lemma RevenueIsConserved(transactions: seq<Transaction>, period: Period, today: int, series: seq<PeriodBucket>)
    requires IsWindow(Texts(series), period, today)
    requires forall b <- series :: b.value == CompletedSum(transactions, HasLabel(period, b.text))
    ensures TotalValue(series) == CompletedSum(transactions, FallsInWindow(period, today))
  {
    hide LabelOf, BucketOf, HasLabel, FirstBucket, InWindow;
    var first := FirstBucket(period, today);
    forall i | 0 <= i < |series| ensures series[i].text == LabelOf(period, first + i) && series[i] in series {
      assert Texts(series)[i] == series[i].text;
    }
    SeriesSum(transactions, period, first, series);
    forall x: Transaction ensures BucketBetween(period, first, first + |series|)(x) <==> FallsInWindow(period, today)(x) {
      WindowIsRange(period, today, x.timestamp);
    }
    SumOfSame(transactions, BucketBetween(period, first, first + |series|), FallsInWindow(period, today));
  }

  /** A moment in the window has its label at exactly one place in it, and a moment outside has it nowhere. */
  lemma EachMomentInOneBucket(labels: seq<string>, period: Period, today: int, ms: int)
    requires IsWindow(labels, period, today)
    ensures InWindow(period, today, ms) <==> BucketLabel(ms, period) in labels
    ensures forall i, j | 0 <= i < |labels| && 0 <= j < |labels| && labels[i] == labels[j] == BucketLabel(ms, period) :: i == j
  {
    hide BucketLabel, LabelOf, BucketOf, FirstBucket, InWindow;
    var first, k := FirstBucket(period, today), BucketOf(period, DayOfInstant(ms));
    WindowIsRange(period, today, ms);
    forall i | 0 <= i < |labels| ensures labels[i] == BucketLabel(ms, period) <==> first + i == k {
      LabelMeansBucket(period, ms, first + i);
    }
    if InWindow(period, today, ms) {
      assert labels[k - first] == BucketLabel(ms, period);
    }
  }

  /** For all but the weekly label, and for it outside the years 0 to 99, the day read is the UTC day itself. */
  lemma DayReadIsDay(period: Period, d: int)
    ensures DayRead(period, d) == d <==> period != Weekly || !(0 <= YearFromDay(d) <= 99)
  {
    hide YearFromDay, ThroughUtc;
    ThroughUtcIs(d);
  }

  lemma TodayInWindow(period: Period, today: int)
    requires period != Weekly || !(0 <= YearFromDay(today) <= 99)
    ensures FirstBucket(period, today) <= BucketOf(period, today) < FirstBucket(period, today) + Length(period)
  {
    hide DayFromYear, YearFromDay, ThroughUtc, MonthFromDay;
    ThroughUtcIs(today);
  }

  /** A window holds the label of every moment of its own day, unless the weekly label misreads that day. */
  lemma WindowHoldsToday(labels: seq<string>, period: Period, now: int)
    requires IsWindow(labels, period, DayOfInstant(now))
    ensures BucketLabel(now, period) in labels <==>
            period != Weekly || !(0 <= YearFromDay(DayOfInstant(now)) <= 99)
  {
    var today := DayOfInstant(now);
    hide BucketLabel, YearFromDay, IsWindow, InWindow, ThroughUtc;
    EachMomentInOneBucket(labels, period, today, now);
    WindowIsRange(period, today, now);
    if period != Weekly || !(0 <= YearFromDay(today) <= 99) {
      TodayInWindow(period, today);
    } else {
      ThroughUtcIs(today);
      CenturiesApart(today, ThroughUtc(today));
    }
  }

  // ----- The window in plain numbers

  lemma WindowInPlainTerms(period: Period, today: int, ms: int)
    ensures var d := DayOfInstant(ms);
            InWindow(period, today, ms) <==>
            match period
            case Daily => 0 <= d - (today - WeekDay(today)) < 7
            case Weekly => 0 <= (today - SinceMonday(today)) - (ThroughUtc(d) - SinceMonday(ThroughUtc(d))) < 12 * 7
            case Monthly => 0 <= (12 * YearFromDay(today) + MonthFromDay(today)) - (12 * YearFromDay(d) + MonthFromDay(d)) < 12
            case Yearly => 0 <= YearFromDay(today) - YearFromDay(d) < 5
  {
    hide InWindow, YearFromDay, MonthFromDay, ThroughUtc, WeekDay, SinceMonday;
    WindowIsRange(period, today, ms);
    var e := ThroughUtc(DayOfInstant(ms));
    assert today - SinceMonday(today) == 7 * WeekIndex(today) - 3 && e - SinceMonday(e) == 7 * WeekIndex(e) - 3;
  }

  /**
   * Which moments a window shows: daily, those of the week from today's Sunday to its Saturday; weekly, those of
   * today's Monday-to-Sunday week and the eleven before it; monthly and yearly, those of the twelve months or five
   * years that end with today's. And the last label of the latter three is today's own.
   */
  lemma WindowShowsExactly(labels: seq<string>, period: Period, now: int, ms: int)
    requires IsWindow(labels, period, DayOfInstant(now)) && ClockIsPlain(period, DayOfInstant(now))
    ensures var today, d := DayOfInstant(now), DayOfInstant(ms);
            BucketLabel(ms, period) in labels <==>
            match period
            case Daily => 0 <= d - (today - WeekDay(today)) < 7
            case Weekly => 0 <= (today - SinceMonday(today)) - (ThroughUtc(d) - SinceMonday(ThroughUtc(d))) < 12 * 7
            case Monthly => 0 <= (12 * YearFromDay(today) + MonthFromDay(today)) - (12 * YearFromDay(d) + MonthFromDay(d)) < 12
            case Yearly => 0 <= YearFromDay(today) - YearFromDay(d) < 5
    ensures |labels| == match period { case Daily => 7 case Weekly => 12 case Monthly => 12 case Yearly => 5 }
    ensures period == Daily ==> labels[WeekDay(DayOfInstant(now))] == BucketLabel(now, period)
    ensures period != Daily ==> labels[|labels| - 1] == BucketLabel(now, period)
  {
    hide InWindow, BucketLabel, LabelOf, YearFromDay, MonthFromDay, ThroughUtc, WeekDay, SinceMonday;
    var today := DayOfInstant(now);
    EachMomentInOneBucket(labels, period, today, ms);
    WindowInPlainTerms(period, today, ms);
    LabelIsOfBucket(now, period);
    ThroughUtcIs(today);
  }

  // ----- Amounts in plain numbers

  lemma {:induction false} AmountsAddUp(transactions: seq<Transaction>, t: Transaction, p: Transaction -> bool)
    ensures CompletedSum([], p) == 0.0
    ensures CompletedSum(transactions + [t], p) ==
            CompletedSum(transactions, p) + if t.status == Completed && p(t) then t.amount else 0.0
  {
    assert (transactions + [t])[..|transactions|] == transactions;
  }

  lemma {:induction false} ValuesAddUp(series: seq<PeriodBucket>, b: PeriodBucket)
    ensures TotalValue([]) == 0.0 && TotalValue(series + [b]) == TotalValue(series) + b.value
  {
    assert (series + [b])[..|series|] == series;
  }

  /** The trend adds up the same money as the currency table. */
  lemma {:induction false} TrendAgreesWithTable(transactions: seq<Transaction>, currency: string)
    ensures CompletedSum(transactions, (t: Transaction) => t.currency == currency) ==
            Aggregations.Sum(transactions, currency, Completed)
  {
    if transactions != [] {
      TrendAgreesWithTable(transactions[..|transactions| - 1], currency);
    }
  }

  /**
   * The trend itself: nothing when no transaction is completed, otherwise one bucket for each label with that
   * label's completed sum. The labels are the day's window exactly for plain clocks, and then the values add up to
   * exactly the completed amounts whose day lies in the window.
   */
  method AggregateRevenueByPeriod(transactions: seq<Transaction>, period: Period, now: int)
    returns (series: seq<PeriodBucket>)
    ensures if exists x :: x in transactions && x.status == Completed then |series| == Length(period) else series == []
    ensures forall b <- series :: b.value == CompletedSum(transactions, HasLabel(period, b.text))
    ensures series != [] ==>
              (IsWindow(Texts(series), period, DayOfInstant(now)) <==> ClockIsPlain(period, DayOfInstant(now)))
    ensures ClockIsPlain(period, DayOfInstant(now)) ==>
              TotalValue(series) == CompletedSum(transactions, FallsInWindow(period, DayOfInstant(now)))
  {
    hide BucketLabel, IsWindow, ClockIsPlain, HasLabel, FallsInWindow, CompletedSum;
    var completed := CompletedOnly(transactions);
    assert |completed| > 0 ==> completed[0] in completed;
    if |completed| == 0 {
      SumOfNone(transactions, FallsInWindow(period, DayOfInstant(now)));
      return [];
    }
    var buckets := SumByLabel(completed, period);
    var allLabels := GeneratePeriodLabels(period, now);
    series := seq(|allLabels|, i requires 0 <= i < |allLabels| =>
      PeriodBucket(allLabels[i], if allLabels[i] in buckets then buckets[allLabels[i]] else 0.0));
    assert Texts(series) == allLabels;
    forall b | b in series ensures b.value == CompletedSum(transactions, HasLabel(period, b.text)) {
      assert b.value == ValueOf(buckets, b.text);
      SumOfCompleted(transactions, HasLabel(period, b.text));
    }
    if ClockIsPlain(period, DayOfInstant(now)) {
      RevenueIsConserved(transactions, period, DayOfInstant(now), series);
    }
  }
}
