/** Proleptic Gregorian calendar dates as Python's `datetime.date` has them:
    years 1 to 9999, and `d - timedelta(1)` as the previous calendar day,
    which raises OverflowError on the first representable day. */
module Dates {

  datatype YMD = YMD(year: int, month: int, day: int)

  predicate IsLeapYear(y: int)
  {
    y % 4 == 0 && (y % 100 != 0 || y % 400 == 0)
  }

  function YearLength(y: int): (n: nat)
    ensures n == 365 || n == 366
  {
    if IsLeapYear(y) then 366 else 365
  }

  /** The length of month `m` of year `y`. The contract bounds it; the exact
      length of every month is fixed by the closed form of `MonthsFillYear`
      and by `DecemberEndsYear`. */
  function DaysInMonth(y: int, m: int): (n: nat)
    requires 1 <= m <= 12
    ensures 28 <= n <= 31
    ensures n == 29 <==> m == 2 && IsLeapYear(y)
  {
    if m == 2 then (if IsLeapYear(y) then 29 else 28)
    else if m == 4 || m == 6 || m == 9 || m == 11 then 30
    else 31
  }

  predicate IsValid(d: YMD)
  {
    && 1 <= d.year <= 9999
    && 1 <= d.month <= 12
    && 1 <= d.day <= DaysInMonth(d.year, d.month)
  }

  /** A date Python can represent. */
  type Date = d: YMD | IsValid(d) witness YMD(1, 1, 1)

  /** `datetime.date.min` and `datetime.date.max`. */
  const MinDate: Date := YMD(1, 1, 1)
  const MaxDate: Date := YMD(9999, 12, 31)

  /** `d - timedelta(1)`: the previous calendar day, across month and year
      ends and 29 February of leap years. */
  function PrevDay(d: Date): (p: Date)
    requires d != MinDate
    ensures p != MaxDate && NextDay(p) == d
  {
    if d.day > 1 then YMD(d.year, d.month, d.day - 1)
    else if d.month > 1 then YMD(d.year, d.month - 1, DaysInMonth(d.year, d.month - 1))
    else YMD(d.year - 1, 12, 31)
  }

  /** `d + timedelta(1)`: the reference against which PrevDay is checked. */
  function NextDay(d: Date): (n: Date)
    requires d != MaxDate
  {
    if d.day < DaysInMonth(d.year, d.month) then YMD(d.year, d.month, d.day + 1)
    else if d.month < 12 then YMD(d.year, d.month + 1, 1)
    else YMD(d.year + 1, 1, 1)
  }

  lemma PrevDayUndoesNextDay(d: Date)
    requires d != MaxDate
    ensures NextDay(d) != MinDate && PrevDay(NextDay(d)) == d
  {
  }

  /** Days in the years before `y`. */
  function DaysBeforeYear(y: int): nat
    requires 1 <= y
  {
    if y == 1 then 0 else DaysBeforeYear(y - 1) + YearLength(y - 1)
  }

  lemma DaysBeforeNextYear(y: int)
    requires 1 <= y
    ensures DaysBeforeYear(y + 1) == DaysBeforeYear(y) + YearLength(y)
  {
  }

  /** Days in year `y` before the first of month `m`. */
  function DaysBeforeMonth(y: int, m: int): nat
    requires 1 <= m <= 12
  {
    if m == 1 then 0 else DaysBeforeMonth(y, m - 1) + DaysInMonth(y, m - 1)
  }

  /** Python's `date.toordinal()`: 1 for 0001-01-01, one more for each later day. */
  function Ordinal(d: Date): (n: nat)
  {
    DaysBeforeYear(d.year) + DaysBeforeMonth(d.year, d.month) + d.day
  }

  /** Days before the first of month `m`, in closed form. */
  lemma {:induction false} MonthsFillYear(y: int, m: int)
    requires 1 <= m <= 12
    ensures DaysBeforeMonth(y, m) == 30 * (m - 1) + [0, 1, -1, 0, 0, 1, 1, 2, 3, 3, 4, 4][m - 1]
                                     + (if m > 2 && IsLeapYear(y) then 1 else 0)
  {
    if m > 1 {
      MonthsFillYear(y, m - 1);
    }
  }

  lemma DecemberEndsYear(y: int)
    ensures DaysBeforeMonth(y, 12) + 31 == YearLength(y)
  {
    MonthsFillYear(y, 12);
  }

  lemma OrdinalPrevDay(d: Date)
    requires d != MinDate
    ensures Ordinal(PrevDay(d)) == Ordinal(d) - 1
  {
    if d.day > 1 {
    } else if d.month > 1 {
      OrdinalPrevDayMonth(d);
    } else {
      OrdinalPrevDayYear(d);
    }
  }

  /** Stepping back from the first of a month other than January ends on the
      last day of the month before. */
  lemma OrdinalPrevDayMonth(d: Date)
    requires d.day == 1 && 1 < d.month
    ensures Ordinal(PrevDay(d)) == Ordinal(d) - 1
  {
    var y, m := d.year, d.month - 1;
    assert PrevDay(d) == YMD(y, m, DaysInMonth(y, m));
    assert DaysBeforeMonth(y, m + 1) == DaysBeforeMonth(y, m) + DaysInMonth(y, m);
  }

  /** Stepping back from 1 January crosses into the previous year. */
  lemma OrdinalPrevDayYear(d: Date)
    requires d.day == 1 && d.month == 1 && d != MinDate
    ensures Ordinal(PrevDay(d)) == Ordinal(d) - 1
  {
    OrdinalNewYearsEve(d.year - 1);
  }

  /** 31 December is the last day counted before the next year. */
  lemma OrdinalNewYearsEve(y: int)
    requires 1 <= y < 9999
    ensures Ordinal(YMD(y, 12, 31)) == DaysBeforeYear(y + 1)
  {
    DecemberEndsYear(y);
    DaysBeforeNextYear(y);
  }

  /** Only the first representable day has ordinal 1. */
  lemma OrdinalOne(d: Date)
    ensures Ordinal(d) == 1 <==> d == MinDate
  {
    if d != MinDate {
      OrdinalPrevDay(d);
    }
  }

  /** The date `k` days before `d`: `d - timedelta(k)`. */
  function Back(d: Date, k: nat): (e: Date)
    requires k < Ordinal(d)
    ensures Ordinal(e) == Ordinal(d) - k
    decreases k
  {
    if k == 0 then d
    else
      OrdinalOne(d);
      OrdinalPrevDay(d);
      Back(PrevDay(d), k - 1)
  }

  /** One more day back is the previous day of the last one. */
  lemma {:induction false} BackStep(d: Date, k: nat)
    requires k + 1 < Ordinal(d)
    ensures Back(d, k) != MinDate && Back(d, k + 1) == PrevDay(Back(d, k))
    decreases k
  {
    OrdinalOne(Back(d, k));
    if k > 0 {
      OrdinalOne(d);
      OrdinalPrevDay(d);
      BackStep(PrevDay(d), k - 1);
    }
  }

  /** The first representable day is `Ordinal(d) - 1` days before `d`. */
  lemma BackToMinDate(d: Date, k: nat)
    requires k + 1 == Ordinal(d)
    ensures Back(d, k) == MinDate
  {
    OrdinalOne(Back(d, k));
  }

  lemma PrevDayExamples()
    ensures PrevDay(YMD(2016, 3, 1)) == YMD(2016, 2, 29)
    ensures PrevDay(YMD(2100, 3, 1)) == YMD(2100, 2, 28)
    ensures PrevDay(YMD(2000, 3, 1)) == YMD(2000, 2, 29)
    ensures PrevDay(YMD(2017, 1, 1)) == YMD(2016, 12, 31)
    ensures PrevDay(YMD(2016, 9, 13)) == YMD(2016, 9, 12)
  {
  }
}
