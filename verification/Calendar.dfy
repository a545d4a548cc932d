/** Retention horizons counted in calendar months: leap years, clamped days, and what clamping costs. */
module Calendar {
  import opened Records

  /** Microseconds of one day, the finest step of the source's instants. */
  const TICKS_PER_DAY := 86_400_000_000

  /** A moment of the proleptic Gregorian calendar; `tick` is the time within its day. */
  datatype Date = Date(year: int, month: int, day: int, tick: nat) {
    predicate Valid() {
      year >= 1 && 1 <= month <= 12 && 1 <= day <= MonthLength(year, month) && tick < TICKS_PER_DAY
    }
  }

  const RETENTION_MONTHS := 24
  const MEMBERSHIP_EVENT_RETENTION_MONTHS := 12

  predicate IsLeap(year: int) {
    year % 4 == 0 && (year % 100 != 0 || year % 400 == 0)
  }

  function MonthLength(year: int, month: int): (days: int)
    ensures 28 <= days <= 31
  {
    if month in {4, 6, 9, 11} then 30 else if month != 2 then 31 else if IsLeap(year) then 29 else 28
  }

  /** Months counted from the start of year zero. */
  function MonthIndex(date: Date): int {
    12 * date.year + date.month - 1
  }

  predicate NotAfter(a: Date, b: Date) {
    || MonthIndex(a) < MonthIndex(b)
    || (MonthIndex(a) == MonthIndex(b) && (a.day < b.day || (a.day == b.day && a.tick <= b.tick)))
  }

  /** Whole calendar months earlier, on the last day of a target month that is too short; years before 1 do not exist. */
  function MonthsBefore(moment: Date, months: nat): (earlier: Option<Date>)
    requires moment.Valid()
    ensures earlier.Some? ==>
      && earlier.value.Valid() && MonthIndex(earlier.value) == MonthIndex(moment) - months
      && earlier.value.tick == moment.tick && earlier.value.day <= moment.day
      && (earlier.value.day < moment.day ==> earlier.value.day == MonthLength(earlier.value.year, earlier.value.month))
    ensures earlier.None? <==> MonthIndex(moment) - months < 12
  {
    var monthIndex := moment.month - 1 - months;
    var year, month := moment.year + monthIndex / 12, monthIndex % 12 + 1;
    if year < 1 then None
    else
      var last := MonthLength(year, month);
      Some(Date(year, month, if moment.day < last then moment.day else last, moment.tick))
  }

  lemma SameMonth(a: Date, b: Date)
    requires a.Valid() && b.Valid() && MonthIndex(a) == MonthIndex(b)
    ensures a.year == b.year && a.month == b.month
  {
  }

  /** Both days fall past the end of the target month, and the later one has the earlier time of day. */
  predicate ClampedApart(a: Date, b: Date, months: nat)
    requires a.Valid() && MonthsBefore(a, months).Some?
  {
    var target := MonthsBefore(a, months).value;
    MonthIndex(a) == MonthIndex(b) && MonthLength(target.year, target.month) <= a.day < b.day && b.tick < a.tick
  }

  /** The horizon follows the moment, except between two days clamped onto one. */
  lemma HorizonAdvancesExactlyWhen(a: Date, b: Date, months: nat)
    requires a.Valid() && b.Valid() && NotAfter(a, b) && MonthsBefore(a, months).Some?
    ensures MonthsBefore(b, months).Some?
    ensures NotAfter(MonthsBefore(a, months).value, MonthsBefore(b, months).value) <==> !ClampedApart(a, b, months)
  {
    if MonthIndex(a) == MonthIndex(b) {
      SameMonth(a, b);
      SameMonth(MonthsBefore(a, months).value, MonthsBefore(b, months).value);
    }
  }

  /** So the horizon can step backwards: a month before 30 March 23:00 is after a month before 31 March 01:00. */
  lemma HorizonCanStepBack() returns (a: Date, b: Date)
    ensures a.Valid() && b.Valid() && NotAfter(a, b)
    ensures MonthsBefore(a, 1).Some? && MonthsBefore(b, 1).Some?
    ensures !NotAfter(MonthsBefore(a, 1).value, MonthsBefore(b, 1).value)
  {
    a, b := Date(2027, 3, 30, 23), Date(2027, 3, 31, 1);
    assert MonthsBefore(a, 1) == Some(Date(2027, 2, 28, 23));
    assert MonthsBefore(b, 1) == Some(Date(2027, 2, 28, 1));
  }

  /** Going back in two steps is never later than in one, and differs only when the middle month is too short. */
  lemma TwoStepsAreNeverLater(moment: Date, a: nat, b: nat)
    requires moment.Valid() && MonthsBefore(moment, a + b).Some?
    ensures MonthsBefore(moment, a).Some? && MonthsBefore(MonthsBefore(moment, a).value, b).Some?
    ensures var middle, once := MonthsBefore(moment, a).value, MonthsBefore(moment, a + b).value;
            var twice := MonthsBefore(middle, b).value;
            NotAfter(twice, once) && (twice == once <==> once.day <= MonthLength(middle.year, middle.month))
  {
    SameMonth(MonthsBefore(moment, a + b).value, MonthsBefore(MonthsBefore(moment, a).value, b).value);
  }

  /** More months reach further back, so a purged account's audit events are past their own horizon too. */
  lemma LongerHorizonsAreEarlier(moment: Date, longer: nat, shorter: nat)
    requires moment.Valid() && longer > shorter && MonthsBefore(moment, longer).Some?
    ensures MonthsBefore(moment, shorter).Some?
    ensures !NotAfter(MonthsBefore(moment, shorter).value, MonthsBefore(moment, longer).value)
  {
  }

  // ----- dates as instants ---------------------------------------------------------------------

  /** Days before the first of a month, from the first of year one. */
  function DaysBefore(monthIndex: int): (days: nat)
    requires monthIndex >= 12
    decreases monthIndex
  {
    if monthIndex == 12 then 0
    else DaysBefore(monthIndex - 1) + MonthLength((monthIndex - 1) / 12, (monthIndex - 1) % 12 + 1)
  }

  /** The instant a date names, counted from the calendar's first. */
  function InstantOf(date: Date): Moment
    requires date.Valid()
  {
    (DaysBefore(MonthIndex(date)) + date.day - 1) * TICKS_PER_DAY + date.tick
  }

  /** How many leap years there are up to a year: every fourth, less every hundredth, and every four-hundredth. */
  function LeapsBy(year: nat): int {
    year / 4 - year / 100 + year / 400
  }

  /** Days before each month of a common year. */
  const MONTH_STARTS := [0, 31, 59, 90, 120, 151, 181, 212, 243, 273, 304, 334, 365]

  lemma LeapYearsCount(year: int)
    requires year >= 1
    ensures LeapsBy(year) - LeapsBy(year - 1) == if IsLeap(year) then 1 else 0
  {
    Fourths(year);
    Hundredths(year);
    FourHundredths(year);
    MultiplesNest(year);
  }

  lemma Fourths(n: int)
    ensures n / 4 - (n - 1) / 4 == if n % 4 == 0 then 1 else 0
  {
  }

  lemma Hundredths(n: int)
    ensures n / 100 - (n - 1) / 100 == if n % 100 == 0 then 1 else 0
  {
  }

  lemma FourHundredths(n: int)
    ensures n / 400 - (n - 1) / 400 == if n % 400 == 0 then 1 else 0
  {
  }

  lemma MultiplesNest(n: int)
    ensures n % 100 == 0 ==> n % 4 == 0
    ensures n % 400 == 0 ==> n % 100 == 0
  {
  }

  /** Where each month of a year starts. */
  lemma {:induction false} MonthsOfYear(year: int, months: nat)
    requires year >= 1 && months <= 12
    ensures DaysBefore(12 * year + months) ==
      DaysBefore(12 * year) + MONTH_STARTS[months] + if months >= 2 && IsLeap(year) then 1 else 0
  {
    if months == 0 {
    } else {
      MonthsOfYear(year, months - 1);
      assert (12 * year + months - 1) / 12 == year && (12 * year + months - 1) % 12 + 1 == months;
    }
  }

  /** Days before the first of January: the proleptic Gregorian calendar in closed form. */
  lemma {:induction false} YearsInClosedForm(year: int)
    requires year >= 1
    ensures DaysBefore(12 * year) == 365 * (year - 1) + LeapsBy(year - 1)
    decreases year
  {
    if year == 1 {
    } else {
      YearsInClosedForm(year - 1);
      MonthsOfYear(year - 1, 12);
      LeapYearsCount(year - 1);
    }
  }

  /** So the count of days behind every instant is the calendar's ordinal, less one. */
  lemma InstantsAreGregorian(date: Date)
    requires date.Valid()
    ensures var y := date.year;
            InstantOf(date) / TICKS_PER_DAY == 365 * (y - 1) + LeapsBy(y - 1) + MONTH_STARTS[date.month - 1]
              + (if date.month > 2 then LeapsBy(y) - LeapsBy(y - 1) else 0) + date.day - 1
    ensures InstantOf(date) % TICKS_PER_DAY == date.tick
  {
    YearsInClosedForm(date.year);
    MonthsOfYear(date.year, date.month - 1);
    LeapYearsCount(date.year);
    Split(DaysBefore(MonthIndex(date)) + date.day - 1, date.tick);
  }

  lemma Split(days: int, tick: nat)
    requires tick < TICKS_PER_DAY
    ensures (days * TICKS_PER_DAY + tick) / TICKS_PER_DAY == days && (days * TICKS_PER_DAY + tick) % TICKS_PER_DAY == tick
  {
  }

  /** Every instant from the calendar's first is some date's, so with the order no date is missing or doubled. */
  lemma {:induction false} EveryDayIsADate(days: nat) returns (date: Date)
    ensures date.Valid() && date.tick == 0 && InstantOf(date) == days * TICKS_PER_DAY
  {
    if days == 0 {
      date := Date(1, 1, 1, 0);
    } else {
      var before := EveryDayIsADate(days - 1);
      date := DayAfter(before);
    }
  }

  lemma DayAfter(date: Date) returns (next: Date)
    requires date.Valid() && date.tick == 0
    ensures next.Valid() && next.tick == 0
    ensures DaysBefore(MonthIndex(next)) + next.day == DaysBefore(MonthIndex(date)) + date.day + 1
  {
    if date.day < MonthLength(date.year, date.month) {
      next := Date(date.year, date.month, date.day + 1, 0);
    } else {
      next := if date.month < 12 then Date(date.year, date.month + 1, 1, 0) else Date(date.year + 1, 1, 1, 0);
      MonthEnds(date.year, date.month);
      assert MonthIndex(next) == MonthIndex(date) + 1;
    }
  }

  lemma MonthEnds(year: int, month: int)
    requires year >= 1 && 1 <= month <= 12
    ensures DaysBefore(12 * year + month) == DaysBefore(12 * year + month - 1) + MonthLength(year, month)
  {
    assert (12 * year + month - 1) / 12 == year && (12 * year + month - 1) % 12 + 1 == month;
  }

  lemma EveryInstantIsADate(moment: nat) returns (date: Date)
    ensures date.Valid() && InstantOf(date) == moment
  {
    var day := EveryDayIsADate(moment / TICKS_PER_DAY);
    date := day.(tick := moment % TICKS_PER_DAY);
    assert MonthIndex(date) == MonthIndex(day);
  }

  lemma {:induction false} MonthsFollow(a: int, b: int)
    requires 12 <= a < b
    ensures DaysBefore(a) + MonthLength(a / 12, a % 12 + 1) <= DaysBefore(b)
    decreases b
  {
    if b == a + 1 {
    } else {
      MonthsFollow(a, b - 1);
    }
  }

  lemma LaterMonthIsLater(a: Date, b: Date)
    requires a.Valid() && b.Valid() && MonthIndex(a) < MonthIndex(b)
    ensures InstantOf(a) < InstantOf(b)
  {
    MonthsFollow(MonthIndex(a), MonthIndex(b));
    assert MonthIndex(a) / 12 == a.year && MonthIndex(a) % 12 + 1 == a.month;
  }

  /** Dates are ordered as their instants are. */
  lemma InstantsFollowDates(a: Date, b: Date)
    requires a.Valid() && b.Valid()
    ensures NotAfter(a, b) <==> InstantOf(a) <= InstantOf(b)
  {
    if MonthIndex(a) < MonthIndex(b) {
      LaterMonthIsLater(a, b);
    } else if MonthIndex(b) < MonthIndex(a) {
      LaterMonthIsLater(b, a);
    }
  }

  // ----- eligibility for purging ---------------------------------------------------------------

  /** An account disabled at `since` has outlived its retention at `now`. */
  predicate Eligible(since: Date, now: Date, months: nat)
    requires now.Valid()
  {
    MonthsBefore(now, months).Some? && NotAfter(since, MonthsBefore(now, months).value)
  }

  /** The exact anniversary: `months` later by the calendar, same day, same time, whatever lies between. */
  predicate AnniversaryPassed(since: Date, now: Date, months: nat) {
    || MonthIndex(since) + months < MonthIndex(now)
    || (MonthIndex(since) + months == MonthIndex(now)
        && (since.day < now.day || (since.day == now.day && since.tick <= now.tick)))
  }

  /** Nothing is eligible before its anniversary; after it, only a clamped day's earlier hours hold it back. */
  lemma EligibleFromTheAnniversary(since: Date, now: Date, months: nat)
    requires since.Valid() && now.Valid()
    ensures Eligible(since, now, months) <==>
      && AnniversaryPassed(since, now, months)
      && !(MonthIndex(since) + months == MonthIndex(now) && since.day == MonthLength(since.year, since.month)
           && since.day < now.day && now.tick < since.tick)
  {
    if MonthsBefore(now, months).Some? && MonthIndex(since) == MonthIndex(MonthsBefore(now, months).value) {
      SameMonth(since, MonthsBefore(now, months).value);
    }
  }

  /** Disabled on the last of February, and now it is a leap day two years later, earlier in the day. */
  predicate WithinTheLeapDay(since: Date, now: Date) {
    && since.month == 2 && since.day == 28 && since.year == now.year - 2
    && now.month == 2 && now.day == 29 && now.tick < since.tick
  }

  /** The twenty-four month horizon lets eligibility lapse exactly within a leap day, until its hour. */
  lemma EligibilityLapsesExactlyOnLeapDays(since: Date, now: Date, later: Date)
    requires since.Valid() && now.Valid() && later.Valid() && NotAfter(now, later)
    requires Eligible(since, now, 24)
    ensures !Eligible(since, later, 24) <==> WithinTheLeapDay(since, later)
  {
    EligibleFromTheAnniversary(since, now, RETENTION_MONTHS);
    EligibleFromTheAnniversary(since, later, RETENTION_MONTHS);
    if !Eligible(since, later, RETENTION_MONTHS) {
      var after := MonthsBefore(later, RETENTION_MONTHS).value;
      SameMonth(since, after);
      assert later.year == after.year + 2 && later.month == after.month;
    }
  }

  lemma EligibilityCanLapse() returns (since: Date, now: Date, later: Date)
    ensures since.Valid() && now.Valid() && later.Valid() && NotAfter(now, later)
    ensures Eligible(since, now, 24) && !Eligible(since, later, 24)
  {
    since, now, later := Date(2026, 2, 28, 12), Date(2028, 2, 28, 12), Date(2028, 2, 29, 6);
    assert MonthsBefore(now, RETENTION_MONTHS) == Some(Date(2026, 2, 28, 12));
    assert MonthsBefore(later, RETENTION_MONTHS) == Some(Date(2026, 2, 28, 6));
  }
}
