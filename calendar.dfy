/**
 * Dates of the proleptic Gregorian calendar, with the day numbering that
 * Python's `date.toordinal()` uses (1 January of year 1 is day 1).  The
 * views subtract dates (`(date.today() - ultima.data).days`); the model
 * subtracts day numbers.
 */
module Calendar {

  datatype Date = Date(year: int, month: int, day: int)

  predicate IsLeap(y: int) {
    y % 4 == 0 && (y % 100 != 0 || y % 400 == 0)
  }

  function DaysInMonth(y: int, m: int): int
    requires 1 <= m <= 12
  {
    if m == 2 then (if IsLeap(y) then 29 else 28)
    else if m == 4 || m == 6 || m == 9 || m == 11 then 30
    else 31
  }

  function DaysInYear(y: int): int {
    if IsLeap(y) then 366 else 365
  }

  /** A date `datetime.date` accepts: years 1 to 9999. */
  predicate Valid(d: Date) {
    1 <= d.year <= 9999 && 1 <= d.month <= 12 && 1 <= d.day <= DaysInMonth(d.year, d.month)
  }

  /** Days in the years before `y`. */
  function DaysBeforeYear(y: int): int
    requires y >= 1
  {
    var p := y - 1;
    p * 365 + p / 4 - p / 100 + p / 400
  }

  /** Days in the months of year `y` before month `m`. */
  function DaysBeforeMonth(y: int, m: int): int
    requires 1 <= m <= 12
  {
    if m == 1 then 0 else DaysBeforeMonth(y, m - 1) + DaysInMonth(y, m - 1)
  }

  /** The day number of a date. */
  function Ordinal(d: Date): int
    requires Valid(d)
  {
    DaysBeforeYear(d.year) + DaysBeforeMonth(d.year, d.month) + d.day
  }

  /** Lexicographic (year, month, day) order, Python's order on dates. */
  predicate Precedes(a: Date, b: Date) {
    a.year < b.year || (a.year == b.year && (a.month < b.month || (a.month == b.month && a.day < b.day)))
  }

  /** The day after `d`. */
  function NextDay(d: Date): Date
    requires Valid(d)
  {
    if d.day < DaysInMonth(d.year, d.month) then Date(d.year, d.month, d.day + 1)
    else if d.month < 12 then Date(d.year, d.month + 1, 1)
    else Date(d.year + 1, 1, 1)
  }

  /** The cumulative month table `_DAYS_BEFORE_MONTH` of Python's datetime, plus the leap day. */
  function MonthTable(m: int): int
    requires 1 <= m <= 12
  {
    [0, 31, 59, 90, 120, 151, 181, 212, 243, 273, 304, 334][m - 1]
  }

  lemma {:induction false} DaysBeforeMonthTable(y: int, m: int)
    requires 1 <= m <= 12
    ensures DaysBeforeMonth(y, m) == MonthTable(m) + (if m > 2 && IsLeap(y) then 1 else 0)
  {
    if m > 1 {
      DaysBeforeMonthTable(y, m - 1);
    }
  }

  lemma DaysBeforeMonthBound(y: int, m: int)
    requires 1 <= m <= 12
    ensures 0 <= DaysBeforeMonth(y, m)
    ensures DaysBeforeMonth(y, m) + DaysInMonth(y, m) <= DaysInYear(y)
    ensures DaysBeforeMonth(y, 12) + DaysInMonth(y, 12) == DaysInYear(y)
  {
    DaysBeforeMonthTable(y, m);
    DaysBeforeMonthTable(y, 12);
  }

  lemma {:induction false} DaysBeforeMonthGrows(y: int, m: int, n: int)
    requires 1 <= m < n <= 12
    ensures DaysBeforeMonth(y, m) + DaysInMonth(y, m) <= DaysBeforeMonth(y, n)
  {
    if m < n - 1 {
      DaysBeforeMonthGrows(y, m, n - 1);
    }
  }

  lemma YearLength(y: int)
    requires y >= 1
    ensures DaysBeforeYear(y + 1) == DaysBeforeYear(y) + DaysInYear(y)
  {
    DivStep(y, 4);
    DivStep(y, 100);
    DivStep(y, 400);
    LeapDivisors(y);
    var p := y - 1;
    assert DaysBeforeYear(y + 1) - DaysBeforeYear(y) ==
           365 + (y / 4 - p / 4) - (y / 100 - p / 100) + (y / 400 - p / 400);
  }

  /** Every multiple of 400 is one of 100, and every multiple of 100 is one of 4. */
  lemma LeapDivisors(y: int)
    ensures y % 400 == 0 ==> y % 100 == 0
    ensures y % 100 == 0 ==> y % 4 == 0
  {
    if y % 400 == 0 {
      MultipleMod(4 * (y / 400), 100);
    }
    if y % 100 == 0 {
      MultipleMod(25 * (y / 100), 4);
    }
  }

  lemma MultipleMod(m: int, k: int)
    requires k == 4 || k == 100
    ensures (k * m) % k == 0
  {
    if k == 4 {
    } else {
    }
  }

  /** Going from `y - 1` to `y` adds one multiple of `k` exactly when `k` divides `y`. */
  lemma DivStep(y: int, k: int)
    requires k == 4 || k == 100 || k == 400
    ensures y / k == (y - 1) / k + (if y % k == 0 then 1 else 0)
  {
    if k == 4 {
    } else if k == 100 {
    } else {
    }
  }

  lemma {:induction false} YearsGrow(a: int, b: int)
    requires 1 <= a < b
    ensures DaysBeforeYear(a) + DaysInYear(a) <= DaysBeforeYear(b)
    decreases b - a
  {
    YearLength(a);
    if a + 1 < b {
      YearsGrow(a + 1, b);
    }
  }

  /** Later dates have larger day numbers: day numbers order dates as the calendar does. */
  lemma OrdinalMonotone(a: Date, b: Date)
    requires Valid(a) && Valid(b) && Precedes(a, b)
    ensures Ordinal(a) < Ordinal(b)
  {
    DaysBeforeMonthBound(a.year, a.month);
    DaysBeforeMonthBound(b.year, b.month);
    if a.year < b.year {
      YearsGrow(a.year, b.year);
    } else if a.month < b.month {
      DaysBeforeMonthGrows(a.year, a.month, b.month);
    }
  }

  /** Consecutive dates have consecutive day numbers. */
  lemma OrdinalNextDay(d: Date)
    requires Valid(d) && d.year < 9999
    ensures Valid(NextDay(d)) && Ordinal(NextDay(d)) == Ordinal(d) + 1
  {
    if d.day == DaysInMonth(d.year, d.month) && d.month == 12 {
      YearLength(d.year);
      DaysBeforeMonthBound(d.year, 12);
    }
  }
}
