/**
 * Calendar dates of the proleptic Gregorian calendar, as Python's `datetime.date`
 * represents them: a constructor that refuses impossible dates, lexicographic
 * comparison, and a day count (`toordinal`) whose differences are `(a - b).days`.
 */
module Dates {
  import opened Wrappers

  const MinYear := 1
  const MaxYear := 9999

  datatype Date = Date(year: int, month: int, day: int)

  predicate IsLeap(y: int) {
    y % 4 == 0 && (y % 100 != 0 || y % 400 == 0)
  }

  function DaysInYear(y: int): int {
    if IsLeap(y) then 366 else 365
  }

  function DaysInMonth(y: int, m: int): int
    requires 1 <= m <= 12
  {
    if m == 2 then (if IsLeap(y) then 29 else 28)
    else if m == 4 || m == 6 || m == 9 || m == 11 then 30
    else 31
  }

  /** The dates `datetime.date(year, month, day)` accepts. */
  predicate Valid(d: Date) {
    && MinYear <= d.year <= MaxYear
    && 1 <= d.month <= 12
    && 1 <= d.day <= DaysInMonth(d.year, d.month)
  }

  /** `datetime.date(y, m, d)`: `None` where Python raises `ValueError`. */
  function MakeDate(y: int, m: int, d: int): (r: Option<Date>)
    ensures r.Some? <==> Valid(Date(y, m, d))
    ensures r.Some? ==> r.value.year == y && r.value.month == m && r.value.day == d
  {
    if Valid(Date(y, m, d)) then Some(Date(y, m, d)) else None
  }

  /** Python's `a < b` on dates: comparison of (year, month, day) in that order. */
  predicate Before(a: Date, b: Date) {
    a.year < b.year
    || (a.year == b.year && a.month < b.month)
    || (a.year == b.year && a.month == b.month && a.day < b.day)
  }

  /** Days in the months before `m` of year `y` (Python's `_days_before_month`, same table). */
  function DaysBeforeMonth(y: int, m: int): int
    requires 1 <= m <= 12
  {
    var table := [0, 0, 31, 59, 90, 120, 151, 181, 212, 243, 273, 304, 334];
    table[m] + (if m > 2 && IsLeap(y) then 1 else 0)
  }

  /** Days in the years before `y` (Python's `_days_before_year`). */
  function DaysBeforeYear(y: int): int
    requires y >= 1
  {
    var y1 := y - 1;
    y1 * 365 + y1 / 4 - y1 / 100 + y1 / 400
  }

  function DayOfYear(d: Date): int
    requires Valid(d)
  {
    DaysBeforeMonth(d.year, d.month) + d.day
  }

  /** `date.toordinal()`: 1 for 0001-01-01, one more for each later day. */
  function Ordinal(d: Date): int
    requires Valid(d)
  {
    DaysBeforeYear(d.year) + DayOfYear(d)
  }

  /** `(a - b).days` */
  function DaysBetween(a: Date, b: Date): int
    requires Valid(a) && Valid(b)
  {
    Ordinal(a) - Ordinal(b)
  }

  // ---------------------------------------------------------------------------
  // The month table agrees with the month lengths.

  lemma MonthTableStep(y: int, m: int)
    requires 1 <= m < 12
    ensures DaysBeforeMonth(y, m + 1) == DaysBeforeMonth(y, m) + DaysInMonth(y, m)
  {
  }

  lemma {:induction false} MonthTableBounds(y: int, m: int)
    requires 1 <= m <= 12
    ensures DaysBeforeMonth(y, m) + DaysInMonth(y, m) <= DaysInYear(y)
    ensures DaysBeforeMonth(y, m) >= 0
  {
  }

  /** Within one year the day number grows strictly with (month, day). */
  lemma DayOfYearMonotone(a: Date, b: Date)
    requires Valid(a) && Valid(b) && a.year == b.year
    ensures Before(a, b) <==> DayOfYear(a) < DayOfYear(b)
  {
    if a.month < b.month {
      MonthGap(a.year, a.month, b.month);
    } else if b.month < a.month {
      MonthGap(a.year, b.month, a.month);
    }
  }

  lemma {:induction false} MonthGap(y: int, m1: int, m2: int)
    requires 1 <= m1 < m2 <= 12
    ensures DaysBeforeMonth(y, m1) + DaysInMonth(y, m1) <= DaysBeforeMonth(y, m2)
  {
    if m2 > m1 + 1 {
      MonthGap(y, m1, m2 - 1);
      MonthTableStep(y, m2 - 1);
    } else {
      MonthTableStep(y, m1);
    }
  }

  /** The day number of a valid date lies in 1..DaysInYear. */
  lemma DayOfYearRange(d: Date)
    requires Valid(d)
    ensures 1 <= DayOfYear(d) <= DaysInYear(d.year)
  {
    MonthTableBounds(d.year, d.month);
  }

  /** The same month and day in two years differ by at most the one leap day. */
  lemma DayOfYearAcrossYears(a: Date, b: Date)
    requires Valid(a) && Valid(b) && a.month == b.month && a.day == b.day
    ensures IsLeap(a.year) && !IsLeap(b.year) ==> DayOfYear(b) <= DayOfYear(a)
    ensures !IsLeap(a.year) ==> DayOfYear(b) <= DayOfYear(a) + 1
  {
  }

  // ---------------------------------------------------------------------------
  // The closed-form year count adds exactly one year's length per year.

  lemma DivStep(x: int, k: int)
    requires x >= 0 && k > 0
    ensures (x + 1) / k == x / k + (if (x + 1) % k == 0 then 1 else 0)
  {
    var q, r := x / k, x % k;
    assert x == k * q + r && 0 <= r < k;
    if r + 1 == k {
      assert x + 1 == k * (q + 1);
      DivUnique(x + 1, k, q + 1, 0);
    } else {
      assert x + 1 == k * q + (r + 1);
      DivUnique(x + 1, k, q, r + 1);
    }
  }

  lemma DivUnique(n: int, k: int, q: int, r: int)
    requires k > 0 && 0 <= r < k && n == k * q + r
    ensures n / k == q && n % k == r
  {
    var q', r' := n / k, n % k;
    assert n == k * q' + r' && 0 <= r' < k;
    var d := q - q';
    assert k * d == r' - r;
    if d >= 1 {
      MulAtLeast(k, d);
    } else if d <= -1 {
      MulAtLeast(k, -d);
    }
  }

  lemma MulAtLeast(k: int, d: int)
    requires k > 0 && d >= 1
    ensures k * d >= k
  {
    assert k * d == k * (d - 1) + k;
  }

  lemma YearStep(y: int)
    requires y >= 1
    ensures DaysBeforeYear(y + 1) == DaysBeforeYear(y) + DaysInYear(y)
  {
    DivStep(y - 1, 4);
    DivStep(y - 1, 100);
    DivStep(y - 1, 400);
    DivisorChain(y);
  }

  /** Every multiple of 400 is a multiple of 100, and every multiple of 100 one of 4. */
  lemma DivisorChain(y: int)
    ensures y % 400 == 0 ==> y % 100 == 0
    ensures y % 100 == 0 ==> y % 4 == 0
  {
    if y % 400 == 0 {
      assert y == 100 * (4 * (y / 400));
      DivUnique(y, 100, 4 * (y / 400), 0);
    }
    if y % 100 == 0 {
      assert y == 4 * (25 * (y / 100));
      DivUnique(y, 4, 25 * (y / 100), 0);
    }
  }

  lemma {:induction false} YearsMonotone(y1: int, y2: int)
    requires 1 <= y1 < y2
    ensures DaysBeforeYear(y1) + DaysInYear(y1) <= DaysBeforeYear(y2)
    decreases y2 - y1
  {
    YearStep(y1);
    if y1 + 1 < y2 {
      YearsMonotone(y1 + 1, y2);
    }
  }

  /** Python's date comparison agrees with the day count: `a < b` iff `a.toordinal() < b.toordinal()`. */
  lemma OrdinalOrder(a: Date, b: Date)
    requires Valid(a) && Valid(b)
    ensures Before(a, b) <==> Ordinal(a) < Ordinal(b)
    ensures a == b <==> Ordinal(a) == Ordinal(b)
  {
    DayOfYearRange(a);
    DayOfYearRange(b);
    if a.year < b.year {
      YearsMonotone(a.year, b.year);
    } else if b.year < a.year {
      YearsMonotone(b.year, a.year);
    } else {
      DayOfYearMonotone(a, b);
      DayOfYearMonotone(b, a);
    }
  }

  /** Across a year boundary the day difference is the rest of the first year plus the day number. */
  lemma NextYearDistance(a: Date, b: Date)
    requires Valid(a) && Valid(b) && b.year == a.year + 1
    ensures DaysBetween(b, a) == DaysInYear(a.year) - DayOfYear(a) + DayOfYear(b)
  {
    YearStep(a.year);
  }
}
