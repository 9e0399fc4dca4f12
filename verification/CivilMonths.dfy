/**
 The Gregorian months behind `date.replace(day=1)` and `timedelta` arithmetic.

 A day is its proleptic ordinal (1 is 0001-01-01, as Python's `date.toordinal`).
 A month is numbered from January of year 1, so month `m` is month `m % 12 + 1` of
 year `m / 12 + 1`.
 */
module CivilMonths {

  type Day = d: int | 1 <= d witness 1

  predicate IsLeap(year: nat) {
    year % 4 == 0 && (year % 100 != 0 || year % 400 == 0)
  }

  function DaysInMonth(month: nat): (n: nat)
    ensures 28 <= n <= 31
  {
    var m := month % 12 + 1;
    if m == 2 then if IsLeap(month / 12 + 1) then 29 else 28
    else if m == 4 || m == 6 || m == 9 || m == 11 then 30
    else 31
  }

  /** The ordinal of the first day of a month. */
  function FirstDay(month: nat): (d: nat)
    ensures d >= 1 + 28 * month
  {
    if month == 0 then 1 else FirstDay(month - 1) + DaysInMonth(month - 1)
  }

  /** The days of a year before its month `k`, January being 0. */
  function DaysBefore(k: nat, leap: bool): nat
    requires k <= 12
  {
    [0, 31, 59, 90, 120, 151, 181, 212, 243, 273, 304, 334, 365][k] + if leap && k > 1 then 1 else 0
  }

  lemma MonthLength(years: nat, k: nat)
    requires k < 12
    ensures DaysBefore(k + 1, IsLeap(years + 1)) == DaysBefore(k, IsLeap(years + 1)) + DaysInMonth(12 * years + k)
  {
    assert (12 * years + k) % 12 == k && (12 * years + k) / 12 == years;
  }

  lemma {:induction false} MonthStarts(years: nat, k: nat)
    requires k <= 12
    ensures FirstDay(12 * years + k) == FirstDay(12 * years) + DaysBefore(k, IsLeap(years + 1))
  {
    if k > 0 {
      MonthStarts(years, k - 1);
      MonthLength(years, k - 1);
      FirstOfMonthAfter(12 * years + (k - 1));
    }
  }

  lemma FirstOfMonthAfter(m: nat)
    ensures FirstDay(m + 1) == FirstDay(m) + DaysInMonth(m)
  {
  }

  /** The leap days of the first so many years: one every four, but not every hundred, but every four hundred. */
  function LeapDays(years: nat): int {
    years / 4 - years / 100 + years / 400
  }

  lemma Quarters(y: nat)
    requires y > 0
    ensures y / 4 == (y - 1) / 4 + if y % 4 == 0 then 1 else 0
  {
  }

  lemma Centuries(y: nat)
    requires y > 0
    ensures y / 100 == (y - 1) / 100 + if y % 100 == 0 then 1 else 0
  {
  }

  lemma FourCenturies(y: nat)
    requires y > 0
    ensures y / 400 == (y - 1) / 400 + if y % 400 == 0 then 1 else 0
  {
  }

  lemma FourTimes(j: nat)
    ensures (4 * j) % 4 == 0
  {
  }

  lemma CenturiesAreQuarters(y: nat)
    ensures y % 100 == 0 ==> y % 4 == 0
  {
    if y % 100 == 0 {
      assert y == 4 * (25 * (y / 100));
      FourTimes(25 * (y / 100));
    }
  }

  lemma HundredTimes(j: nat)
    ensures (100 * j) % 100 == 0
  {
  }

  lemma FoursAreCenturies(y: nat)
    ensures y % 400 == 0 ==> y % 100 == 0
  {
    if y % 400 == 0 {
      assert y == 100 * (4 * (y / 400));
      HundredTimes(4 * (y / 400));
    }
  }

  lemma LeapDayAdded(y: nat)
    requires y > 0
    ensures LeapDays(y) == LeapDays(y - 1) + if IsLeap(y) then 1 else 0
  {
    Quarters(y);
    Centuries(y);
    FourCenturies(y);
    CenturiesAreQuarters(y);
    FoursAreCenturies(y);
  }

  /** The ordinal of the first of January, in closed form. */
  lemma {:induction false} YearStarts(years: nat)
    ensures FirstDay(12 * years) == 1 + 365 * years + LeapDays(years)
  {
    if years > 0 {
      YearStarts(years - 1);
      MonthStarts(years - 1, 12);
      LeapDayAdded(years);
    }
  }

  /** The month a day falls in, found by walking forward from a month not after it. */
  function MonthFrom(day: nat, month: nat): (m: nat)
    requires FirstDay(month) <= day
    ensures FirstDay(m) <= day < FirstDay(m + 1)
    decreases day - FirstDay(month)
  {
    if day < FirstDay(month + 1) then month else MonthFrom(day, month + 1)
  }

  function MonthOf(day: Day): (m: nat)
    ensures FirstDay(m) <= day < FirstDay(m + 1)
  {
    MonthFrom(day, 0)
  }

  /** `date.replace(day=1)`. */
  function ReplaceDay1(day: Day): Day
  {
    FirstDay(MonthOf(day))
  }

  lemma {:induction false} FirstDayMonotone(a: nat, b: nat)
    requires a <= b
    ensures FirstDay(a) + 28 * (b - a) <= FirstDay(b)
  {
    if a < b {
      FirstDayMonotone(a, b - 1);
    }
  }

  lemma MonthIsShort(m: nat)
    ensures FirstDay(m) < FirstDay(m + 1) <= FirstDay(m) + 31
  {
  }

  lemma MonthsInOrder(day: Day, m: nat, k: nat)
    requires FirstDay(m) <= day < FirstDay(k + 1)
    ensures m <= k
  {
    if k < m { FirstDayMonotone(k + 1, m); }
  }

  /** A day lies in one month only. */
  lemma MonthUnique(day: Day, m: nat)
    requires FirstDay(m) <= day < FirstDay(m + 1)
    ensures MonthOf(day) == m
  {
    MonthsInOrder(day, m, MonthOf(day));
    MonthsInOrder(day, MonthOf(day), m);
  }

  lemma MonthOfFirst(m: nat)
    ensures MonthOf(FirstDay(m)) == m
  {
    MonthIsShort(m);
    MonthUnique(FirstDay(m), m);
  }

  /**
   The archive's month step: the first of the month plus 32 days, with the day set
   back to 1, is the first of the next month, whatever the lengths of the two months.
   */
  lemma NextMonthStep(start: Day)
    ensures ReplaceDay1(ReplaceDay1(start) + 32) == FirstDay(MonthOf(start) + 1)
  {
    FirstOfNext(MonthOf(start), ReplaceDay1(start));
  }

  lemma FirstOfNext(m: nat, first: Day)
    requires first == FirstDay(m)
    ensures ReplaceDay1(first + 32) == FirstDay(m + 1)
  {
    NextMonthHolds(m, m + 1, first);
    FirstOfMonth(first + 32, m + 1);
  }

  lemma FirstOfMonth(day: Day, m: nat)
    requires FirstDay(m) <= day < FirstDay(m + 1)
    ensures ReplaceDay1(day) == FirstDay(m)
  {
    MonthUnique(day, m);
  }

  lemma NextMonthHolds(m: nat, next: nat, first: Day)
    requires next == m + 1 && first == FirstDay(m)
    ensures FirstDay(next) <= first + 32 < FirstDay(next + 1)
  {
    FirstOfMonthAfter(m);
    FirstOfMonthAfter(next);
  }
}
