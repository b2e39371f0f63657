/**
 * The proleptic Gregorian calendar of Python's `datetime`, restricted to the
 * years it supports (1 to 9999), with the day ordinal that `datetime` uses for
 * date arithmetic: 1 January of year 1 is day 1, and adding a `timedelta` of
 * `k` days moves the ordinal by `k`.
 */
module Calendar {

  const MinYear := 1
  const MaxYear := 9999
  /** The ordinal of 31 December 9999, the last date `datetime` can represent. */
  const MaxOrdinal := 3652059

  datatype Date = Date(year: int, month: int, day: int)

  /** The Gregorian leap rule: every fourth year, except the century years not divisible by 400. */
  predicate IsLeap(y: int)
    ensures IsLeap(y) ==> y % 4 == 0
    ensures y % 4 == 0 && y % 100 != 0 ==> IsLeap(y)
    ensures y % 100 == 0 && y % 400 != 0 ==> !IsLeap(y)
    ensures y % 400 == 0 ==> IsLeap(y)
  {
    assert y % 400 == 0 ==> y % 4 == 0 by {
      if y % 400 == 0 {
        assert y == 4 * (100 * (y / 400));
      }
    }
    y % 4 == 0 && (y % 100 != 0 || y % 400 == 0)
  }

  function YearLength(y: int): int {
    if IsLeap(y) then 366 else 365
  }

  function DaysInMonth(y: int, m: int): (n: int)
    requires 1 <= m <= 12
    ensures 28 <= n <= 31
    ensures n == 29 <==> m == 2 && IsLeap(y)
  {
    if m == 2 then (if IsLeap(y) then 29 else 28)
    else if m == 4 || m == 6 || m == 9 || m == 11 then 30
    else 31
  }

  /** A year, month and day `datetime` accepts. */
  predicate Valid(d: Date) {
    WellFormed(d) && d.year <= MaxYear
  }

  /** A month and day that exist in a year on or after year 1, without the upper bound on the year. */
  predicate WellFormed(d: Date) {
    MinYear <= d.year && 1 <= d.month <= 12 && 1 <= d.day <= DaysInMonth(d.year, d.month)
  }

  /** Days in the years before `y`, counted from year 1. */
  function DaysBeforeYear(y: int): (n: int)
    requires y >= 1
    ensures 365 * (y - 1) <= n <= 366 * (y - 1)
  {
    var p := y - 1;
    p * 365 + p / 4 - p / 100 + p / 400
  }

  /** Days in the months of year `y` before month `m`; `m == 13` gives the whole year. */
  function DaysBeforeMonth(y: int, m: int): (n: int)
    requires 1 <= m <= 13
    ensures 0 <= n <= YearLength(y)
    ensures m == 1 ==> n == 0
    ensures m == 13 ==> n == YearLength(y)
  {
    [0, 31, 59, 90, 120, 151, 181, 212, 243, 273, 304, 334, 365][m - 1]
      + (if m > 2 && IsLeap(y) then 1 else 0)
  }

  /** The day number of `d` (Python's `date.toordinal`): it falls within the days of its own year. */
  function Ordinal(d: Date): (n: int)
    requires WellFormed(d)
    ensures n >= 1
    ensures DaysBeforeYear(d.year) < n <= DaysBeforeYear(d.year) + YearLength(d.year)
  {
    DaysBeforeMonthStep(d.year, d.month);
    DaysBeforeYear(d.year) + DaysBeforeMonth(d.year, d.month) + d.day
  }

  lemma DaysBeforeYearStep(y: int)
    requires y >= 1
    ensures DaysBeforeYear(y + 1) == DaysBeforeYear(y) + YearLength(y)
  {
    DivStep(y, 4);
    DivStep(y, 100);
    DivStep(y, 400);
    YearLengthByDivisors(y);
  }

  /** The Gregorian rule as a count: 365 days, plus one for multiples of 4, minus one for multiples of 100, plus one for multiples of 400. */
  lemma YearLengthByDivisors(y: int)
    ensures YearLength(y) == 365 + (if y % 4 == 0 then 1 else 0) - (if y % 100 == 0 then 1 else 0) + (if y % 400 == 0 then 1 else 0)
  {
  }

  /** Moving from `y - 1` to `y` adds one multiple of `b` exactly when `b` divides `y`. */
  lemma DivStep(y: int, b: int)
    requires y >= 1 && (b == 4 || b == 100 || b == 400)
    ensures y / b == (y - 1) / b + (if y % b == 0 then 1 else 0)
  {
  }

  /** Each later year starts at least 365 days later. */
  lemma {:induction false} DaysBeforeYearGrows(y1: int, y2: int)
    requires 1 <= y1 <= y2
    ensures DaysBeforeYear(y2) >= DaysBeforeYear(y1) + 365 * (y2 - y1)
    decreases y2 - y1
  {
    if y1 < y2 {
      DaysBeforeYearStep(y1);
      DaysBeforeYearGrows(y1 + 1, y2);
    }
  }

  lemma DaysBeforeMonthStep(y: int, m: int)
    requires 1 <= m <= 12
    ensures DaysBeforeMonth(y, m + 1) == DaysBeforeMonth(y, m) + DaysInMonth(y, m)
  {
  }

  /**
   * Walks forward a year at a time from year `y`: the year that holds the
   * `n`-th day counted from 1 January of `y`, and that day's position in it.
   */
  function YearOf(y: int, n: int): (r: (int, int))
    requires y >= 1 && n >= 1
    ensures r.0 >= y && 1 <= r.1 <= YearLength(r.0)
    ensures DaysBeforeYear(r.0) + r.1 == DaysBeforeYear(y) + n
    decreases n
  {
    if n <= YearLength(y) then (y, n)
    else
      DaysBeforeYearStep(y);
      YearOf(y + 1, n - YearLength(y))
  }

  /**
   * Walks forward a month at a time from month `m` of year `y`: the month that
   * holds the `k`-th day counted from the first of `m`, and the day in it.
   */
  function MonthOf(y: int, m: int, k: int): (r: (int, int))
    requires 1 <= m <= 12 && 1 <= k <= DaysBeforeMonth(y, 13) - DaysBeforeMonth(y, m)
    ensures m <= r.0 <= 12 && 1 <= r.1 <= DaysInMonth(y, r.0)
    ensures DaysBeforeMonth(y, r.0) + r.1 == DaysBeforeMonth(y, m) + k
    decreases 12 - m
  {
    DaysBeforeMonthStep(y, m);
    if k <= DaysInMonth(y, m) then (m, k)
    else MonthOf(y, m + 1, k - DaysInMonth(y, m))
  }

  /** The date with ordinal `n`: the inverse of `Ordinal` (Python's `date.fromordinal`). */
  function FromOrdinal(n: int): (d: Date)
    requires n >= 1
    ensures WellFormed(d) && Ordinal(d) == n
  {
    var (y, k) := YearOf(MinYear, n);
    var (m, day) := MonthOf(y, 1, k);
    Date(y, m, day)
  }

  /** A day in an earlier year comes before any day in a later year. */
  lemma YearPositionOrder(y1: int, k1: int, y2: int, k2: int)
    requires 1 <= y1 && 1 <= k1 <= YearLength(y1)
    requires 1 <= y2 && 1 <= k2
    ensures y1 < y2 ==> DaysBeforeYear(y1) + k1 < DaysBeforeYear(y2) + k2
  {
    if y1 < y2 {
      DaysBeforeYearStep(y1);
      DaysBeforeYearGrows(y1 + 1, y2);
    }
  }

  /** The walk from year `y0` finds day `k` of year `y` at the position that day has. */
  lemma YearOfUnique(y0: int, y: int, k: int)
    requires 1 <= y0 <= y && 1 <= k <= YearLength(y)
    ensures YearOf(y0, DaysBeforeYear(y) - DaysBeforeYear(y0) + k) == (y, k)
  {
    DaysBeforeYearGrows(y0, y);
    var r := YearOf(y0, DaysBeforeYear(y) - DaysBeforeYear(y0) + k);
    YearPositionOrder(r.0, r.1, y, k);
    YearPositionOrder(y, k, r.0, r.1);
  }

  lemma {:induction false} MonthOfUnique(y: int, m0: int, m: int, k: int)
    requires 1 <= m0 <= m <= 12 && 1 <= k <= DaysInMonth(y, m)
    ensures 1 <= DaysBeforeMonth(y, m) - DaysBeforeMonth(y, m0) + k <= DaysBeforeMonth(y, 13) - DaysBeforeMonth(y, m0)
    ensures MonthOf(y, m0, DaysBeforeMonth(y, m) - DaysBeforeMonth(y, m0) + k) == (m, k)
    decreases m - m0
  {
    DaysBeforeMonthStep(y, m);
    if m0 < m {
      DaysBeforeMonthStep(y, m0);
      MonthOfUnique(y, m0 + 1, m, k);
    }
  }

  /** Every date on or after year 1 is recovered from its ordinal. */
  lemma FromOrdinalOfOrdinal(d: Date)
    requires WellFormed(d)
    ensures FromOrdinal(Ordinal(d)) == d
  {
    var k := DaysBeforeMonth(d.year, d.month) + d.day;
    MonthOfUnique(d.year, 1, d.month, d.day);
    assert MonthOf(d.year, 1, k) == (d.month, d.day);
    YearOfUnique(MinYear, d.year, k);
    assert YearOf(MinYear, Ordinal(d)) == (d.year, k);
  }

  /** Two dates with the same ordinal are the same date. */
  lemma OrdinalInjective(d1: Date, d2: Date)
    requires WellFormed(d1) && WellFormed(d2) && Ordinal(d1) == Ordinal(d2)
    ensures d1 == d2
  {
    FromOrdinalOfOrdinal(d1);
    FromOrdinalOfOrdinal(d2);
  }

  /** The supported dates are exactly those whose ordinals lie in 1..MaxOrdinal. */
  lemma ValidIffOrdinalInRange(d: Date)
    requires WellFormed(d)
    ensures Valid(d) <==> 1 <= Ordinal(d) <= MaxOrdinal
  {
    DaysBeforeMonthStep(d.year, d.month);
    DaysBeforeYearStep(d.year);
    if d.year <= MaxYear {
      DaysBeforeYearGrows(d.year + 1, MaxYear + 1);
    } else {
      DaysBeforeYearGrows(MaxYear + 1, d.year);
    }
  }

  /** Every ordinal in 1..MaxOrdinal names a supported date. */
  lemma FromOrdinalValid(n: int)
    requires 1 <= n <= MaxOrdinal
    ensures Valid(FromOrdinal(n))
  {
    ValidIffOrdinalInRange(FromOrdinal(n));
  }

  /** The day after `d` in the calendar: the next day of the month, else the first of the next month, else 1 January of the next year. */
  function NextDay(d: Date): (e: Date)
    requires WellFormed(d)
    ensures WellFormed(e)
  {
    if d.day < DaysInMonth(d.year, d.month) then Date(d.year, d.month, d.day + 1)
    else if d.month < 12 then Date(d.year, d.month + 1, 1)
    else Date(d.year + 1, 1, 1)
  }

  /** The ordinal counts calendar days: the next day has the next ordinal. */
  lemma OrdinalNextDay(d: Date)
    requires WellFormed(d)
    ensures Ordinal(NextDay(d)) == Ordinal(d) + 1
  {
    DaysBeforeMonthStep(d.year, d.month);
    if d.day == DaysInMonth(d.year, d.month) && d.month == 12 {
      DaysBeforeYearStep(d.year);
    }
  }

  /** The date `k` days after `d`, reached by taking `NextDay` `k` times. */
  function DaysAfter(d: Date, k: nat): (e: Date)
    requires WellFormed(d)
    ensures WellFormed(e)
    decreases k
  {
    if k == 0 then d else DaysAfter(NextDay(d), k - 1)
  }

  lemma {:induction false} OrdinalDaysAfter(d: Date, k: nat)
    requires WellFormed(d)
    ensures Ordinal(DaysAfter(d, k)) == Ordinal(d) + k
    decreases k
  {
    if k > 0 {
      OrdinalNextDay(d);
      OrdinalDaysAfter(NextDay(d), k - 1);
    }
  }
}
