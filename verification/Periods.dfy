/** The periods of a time series: days, or months when the dates span more than a quarter. */
module Periods {
  import opened Calendar
  import opened Records
  import opened Texts

  const DAY_SPAN := 92

  datatype Granularity = Daily | Monthly

  /** Days from the calendar's first, whatever the time of day. */
  function DayNumber(date: Date): int
    requires date.Valid()
  {
    DaysBefore(MonthIndex(date)) + date.day - 1
  }

  /** The date alone, without its time. */
  function DayOf(date: Date): Date {
    date.(tick := 0)
  }

  lemma SameNumber(date: Date)
    requires date.Valid()
    ensures DayOf(date).Valid() && DayNumber(DayOf(date)) == DayNumber(date)
  {
    assert MonthIndex(DayOf(date)) == MonthIndex(date);
  }

  /** Dates are ordered as their numbers are, and have one number only if they are one day. */
  lemma DaysFollowDates(a: Date, b: Date)
    requires a.Valid() && b.Valid()
    ensures NotAfter(DayOf(a), DayOf(b)) <==> DayNumber(a) <= DayNumber(b)
    ensures DayNumber(a) == DayNumber(b) <==> DayOf(a) == DayOf(b)
  {
    SameNumber(a);
    SameNumber(b);
    InstantsFollowDates(DayOf(a), DayOf(b));
    InstantsFollowDates(DayOf(b), DayOf(a));
    if MonthIndex(a) == MonthIndex(b) {
      SameMonth(a, b);
    }
  }

  /** More days apart than a daily series may cover. */
  predicate FarApart(a: Date, b: Date) {
    a.Valid() && b.Valid() && DayNumber(b) - DayNumber(a) > 92
  }

  /** Monthly exactly when some two of the dates are more than the span apart. */
  method GranularityFor(dates: seq<Date>) returns (granularity: Granularity)
    requires forall date :: date in dates ==> date.Valid()
    ensures granularity == Monthly <==> exists a, b :: a in dates && b in dates && FarApart(a, b)
  {
    if dates == [] {
      return Daily;
    }
    var first, last := 0, 0;
    for k := 1 to |dates|
      invariant 0 <= first < |dates| && 0 <= last < |dates|
      invariant forall i :: 0 <= i < k ==> DayNumber(dates[first]) <= DayNumber(dates[i]) <= DayNumber(dates[last])
    {
      DaysFollowDates(dates[first], dates[k]);
      DaysFollowDates(dates[k], dates[last]);
      if !NotAfter(DayOf(dates[first]), DayOf(dates[k])) {
        first := k;
      }
      if !NotAfter(DayOf(dates[k]), DayOf(dates[last])) {
        last := k;
      }
    }
    granularity := if DayNumber(dates[last]) - DayNumber(dates[first]) > DAY_SPAN then Monthly else Daily;
    if granularity == Monthly {
      assert dates[first] in dates && dates[last] in dates && FarApart(dates[first], dates[last]);
    }
  }

  // ----- labels --------------------------------------------------------------------------------

  function TwoDigits(n: nat): (text: string)
    requires n < 100
    ensures |text| == 2
  {
    [Digit(n / 10), Digit(n % 10)]
  }

  function FourDigits(n: nat): (text: string)
    requires n < 10000
    ensures |text| == 4
  {
    TwoDigits(n / 100) + TwoDigits(n % 100)
  }

  /** The last year a date can carry. */
  predicate Printable(date: Date) {
    date.Valid() && date.year < 10000
  }

  function MonthLabel(date: Date): (text: string)
    requires Printable(date)
    ensures |text| == 7
  {
    FourDigits(date.year) + ("-" + TwoDigits(date.month))
  }

  function PeriodLabel(date: Date, granularity: Granularity): string
    requires Printable(date)
  {
    if granularity.Monthly? then MonthLabel(date) else MonthLabel(date) + ("-" + TwoDigits(date.day))
  }

  /** The same day, or the same month. */
  predicate SamePeriod(a: Date, b: Date, granularity: Granularity) {
    MonthIndex(a) == MonthIndex(b) && (granularity.Monthly? || a.day == b.day)
  }

  predicate EarlierPeriod(a: Date, b: Date, granularity: Granularity) {
    || MonthIndex(a) < MonthIndex(b)
    || (MonthIndex(a) == MonthIndex(b) && granularity.Daily? && a.day < b.day)
  }

  lemma {:induction false} BeforeByParts(a: string, b: string, c: string, d: string)
    requires |a| == |b|
    ensures Before(a + c, b + d) <==> Before(a, b) || (a == b && Before(c, d))
  {
    if a == "" {
      assert a + c == c && b + d == d;
    } else {
      BeforeByParts(a[1..], b[1..], c, d);
      assert (a + c)[1..] == a[1..] + c && (b + d)[1..] == b[1..] + d;
      assert a == b <==> a[0] == b[0] && a[1..] == b[1..];
    }
  }

  lemma TwoDigitsFollow(m: nat, n: nat)
    requires m < 100 && n < 100
    ensures Before(TwoDigits(m), TwoDigits(n)) <==> m < n
    ensures TwoDigits(m) == TwoDigits(n) <==> m == n
  {
    assert TwoDigits(m) == [Digit(m / 10)] + [Digit(m % 10)] && TwoDigits(n) == [Digit(n / 10)] + [Digit(n % 10)];
    BeforeByParts([Digit(m / 10)], [Digit(n / 10)], [Digit(m % 10)], [Digit(n % 10)]);
    DigitsFollow(m / 10, n / 10);
    DigitsFollow(m % 10, n % 10);
  }

  lemma DigitsFollow(m: nat, n: nat)
    requires m < 10 && n < 10
    ensures Before([Digit(m)], [Digit(n)]) <==> m < n
    ensures Digit(m) == Digit(n) <==> m == n
  {
  }

  lemma FourDigitsFollow(m: nat, n: nat)
    requires m < 10000 && n < 10000
    ensures Before(FourDigits(m), FourDigits(n)) <==> m < n
    ensures FourDigits(m) == FourDigits(n) <==> m == n
  {
    BeforeByParts(TwoDigits(m / 100), TwoDigits(n / 100), TwoDigits(m % 100), TwoDigits(n % 100));
    TwoDigitsFollow(m / 100, n / 100);
    TwoDigitsFollow(m % 100, n % 100);
    SameParts(TwoDigits(m / 100), TwoDigits(n / 100), TwoDigits(m % 100), TwoDigits(n % 100));
  }

  lemma SameParts(a: string, b: string, c: string, d: string)
    requires |a| == |b|
    ensures a + c == b + d <==> a == b && c == d
  {
    assert (a + c)[..|a|] == a && (b + d)[..|a|] == b && (a + c)[|a|..] == c && (b + d)[|a|..] == d;
  }

  lemma DashedFollow(m: nat, n: nat)
    requires m < 100 && n < 100
    ensures Before("-" + TwoDigits(m), "-" + TwoDigits(n)) <==> m < n
    ensures "-" + TwoDigits(m) == "-" + TwoDigits(n) <==> m == n
  {
    BeforeByParts("-", "-", TwoDigits(m), TwoDigits(n));
    SameParts("-", "-", TwoDigits(m), TwoDigits(n));
    TwoDigitsFollow(m, n);
    assert !Before("-", "-");
  }

  lemma MonthLabelsFollow(a: Date, b: Date)
    requires Printable(a) && Printable(b)
    ensures Before(MonthLabel(a), MonthLabel(b)) <==> MonthIndex(a) < MonthIndex(b)
    ensures MonthLabel(a) == MonthLabel(b) <==> MonthIndex(a) == MonthIndex(b)
  {
    BeforeByParts(FourDigits(a.year), FourDigits(b.year), "-" + TwoDigits(a.month), "-" + TwoDigits(b.month));
    SameParts(FourDigits(a.year), FourDigits(b.year), "-" + TwoDigits(a.month), "-" + TwoDigits(b.month));
    FourDigitsFollow(a.year, b.year);
    DashedFollow(a.month, b.month);
  }

  /** Sorting labels as text sorts periods in time, and one label is one period. */
  lemma LabelsFollowPeriods(a: Date, b: Date, granularity: Granularity)
    requires Printable(a) && Printable(b)
    ensures Before(PeriodLabel(a, granularity), PeriodLabel(b, granularity)) <==> EarlierPeriod(a, b, granularity)
    ensures PeriodLabel(a, granularity) == PeriodLabel(b, granularity) <==> SamePeriod(a, b, granularity)
  {
    MonthLabelsFollow(a, b);
    if granularity.Daily? {
      BeforeByParts(MonthLabel(a), MonthLabel(b), "-" + TwoDigits(a.day), "-" + TwoDigits(b.day));
      SameParts(MonthLabel(a), MonthLabel(b), "-" + TwoDigits(a.day), "-" + TwoDigits(b.day));
      DashedFollow(a.day, b.day);
    }
  }

  // ----- reading a label back ------------------------------------------------------------------

  lemma TwoDigitsReadBack(n: nat)
    requires n < 100
    ensures Numeral(TwoDigits(n)) && ValueOf(TwoDigits(n)) == n
  {
    var text := TwoDigits(n);
    assert text[..1] == [Digit(n / 10)] && text[..1][..0] == [];
    assert ValueOf(text[..1]) == n / 10;
  }

  lemma ValueOfPair(a: string, b: string)
    requires Numeral(a) && Numeral(b) && |b| == 2
    ensures Numeral(a + b) && ValueOf(a + b) == 100 * ValueOf(a) + ValueOf(b)
  {
    var more := a + b[..1];
    assert (a + b)[..|a| + 1] == more && more[..|a|] == a && b[..1][..0] == [];
    assert ValueOf(b[..1]) == b[0] as int - '0' as int;
    assert ValueOf(more) == 10 * ValueOf(a) + (b[0] as int - '0' as int);
  }

  lemma FourDigitsReadBack(n: nat)
    requires n < 10000
    ensures Numeral(FourDigits(n)) && ValueOf(FourDigits(n)) == n
  {
    TwoDigitsReadBack(n / 100);
    TwoDigitsReadBack(n % 100);
    ValueOfPair(TwoDigits(n / 100), TwoDigits(n % 100));
  }

  /** The ISO form: four digits of year, two of month and, by days, two of day, with dashes between. */
  lemma LabelReadsBack(date: Date, granularity: Granularity)
    requires Printable(date)
    ensures var text := PeriodLabel(date, granularity);
            && |text| == (if granularity.Daily? then 10 else 7)
            && Numeral(text[..4]) && ValueOf(text[..4]) == date.year
            && text[4] == '-' && Numeral(text[5..7]) && ValueOf(text[5..7]) == date.month
            && (granularity.Daily? ==> text[7] == '-' && Numeral(text[8..]) && ValueOf(text[8..]) == date.day)
  {
    var text, month := PeriodLabel(date, granularity), MonthLabel(date);
    FourDigitsReadBack(date.year);
    TwoDigitsReadBack(date.month);
    TwoDigitsReadBack(date.day);
    assert month[..4] == FourDigits(date.year) && month[5..7] == TwoDigits(date.month);
    assert text[..4] == month[..4] && text[5..7] == month[5..7] && text[4] == month[4];
    if granularity.Daily? {
      assert text[8..] == TwoDigits(date.day);
    }
  }
}
