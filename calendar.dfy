/**
 * Calendar dates in the proleptic Gregorian calendar, with the two pieces of
 * java.time.LocalDate arithmetic the range resolver uses: minusDays and
 * minusMonths. Years are unbounded integers.
 */
module Calendar {

  /** A (year, month, day) triple; ValidDate says when it names a real day. */
  datatype Date = Date(year: int, month: int, day: int)

  /** The leap-year rule of Appendix C of RFC 3339 (also java.time.Year.isLeap). */
  predicate IsLeapYear(y: int) {
    y % 4 == 0 && (y % 100 != 0 || y % 400 == 0)
  }

  function DaysInMonth(y: int, m: int): (n: int)
    requires 1 <= m <= 12
    ensures 28 <= n <= 31
    ensures n == 29 <==> m == 2 && IsLeapYear(y)
  {
    if m == 2 then (if IsLeapYear(y) then 29 else 28)
    else if m == 4 || m == 6 || m == 9 || m == 11 then 30
    else 31
  }

  predicate ValidDate(d: Date) {
    1 <= d.month <= 12 && 1 <= d.day <= DaysInMonth(d.year, d.month)
  }

  /** LocalDate.isBefore: year first, then month, then day. */
  predicate Before(a: Date, b: Date) {
    a.year < b.year
    || (a.year == b.year && a.month < b.month)
    || (a.year == b.year && a.month == b.month && a.day < b.day)
  }

  function Min(a: int, b: int): int {
    if a <= b then a else b
  }

  // ---------------------------------------------------------------------------
  // Serial day numbers: an independent reference for day arithmetic
  // ---------------------------------------------------------------------------

  /** Number of leap years in 1..y, shifted by a constant for y < 1 (floor division). */
  function LeapsThrough(y: int): int {
    y / 4 - y / 100 + y / 400
  }

  /** Days of year y that come before the first day of month m. */
  function DaysBeforeMonth(y: int, m: int): int
    requires 1 <= m <= 12
  {
    var table := [0, 31, 59, 90, 120, 151, 181, 212, 243, 273, 304, 334];
    table[m - 1] + (if m > 2 && IsLeapYear(y) then 1 else 0)
  }

  /** Days since a fixed epoch; consecutive valid dates get consecutive numbers. */
  function DayNumber(d: Date): int
    requires ValidDate(d)
  {
    365 * d.year + LeapsThrough(d.year - 1) + DaysBeforeMonth(d.year, d.month) + d.day
  }

  /** The month count java.time uses: year * 12 + (month - 1). */
  function MonthIndex(d: Date): int {
    d.year * 12 + (d.month - 1)
  }

  /** Floor division by k grows by one exactly when k divides y. */
  lemma DivStep(y: int, k: int)
    requires k == 4 || k == 100 || k == 400
    ensures y / k - (y - 1) / k == if y % k == 0 then 1 else 0
  {
    if k == 4 {
    } else if k == 100 {
    } else {
    }
  }

  lemma LeapStep(y: int)
    ensures LeapsThrough(y) - LeapsThrough(y - 1) == if IsLeapYear(y) then 1 else 0
  {
    DivStep(y, 4);
    DivStep(y, 100);
    DivStep(y, 400);
    Multiples(y);
  }

  /** A multiple of 400 is one of 100, and a multiple of 100 is one of 4. */
  lemma Multiples(y: int)
    ensures y % 400 == 0 ==> y % 100 == 0
    ensures y % 100 == 0 ==> y % 4 == 0
  {
    if y % 100 == 0 {
      MultipleOf(y, 100, 4);
    }
    if y % 400 == 0 {
      MultipleOf(y, 400, 100);
    }
  }

  /** A multiple of a multiple of k is a multiple of k. */
  lemma MultipleOf(y: int, n: int, k: int)
    requires (n == 100 && k == 4) || (n == 400 && k == 100)
    requires y % n == 0
    ensures y % k == 0
  {
    var q := y / n;
    assert y == n * q;
    assert y == k * ((n / k) * q);
  }

  lemma MonthStep(y: int, m: int)
    requires 1 <= m < 12
    ensures DaysBeforeMonth(y, m) + DaysInMonth(y, m) == DaysBeforeMonth(y, m + 1)
  {
  }

  /** The first day of year y + 1 follows the last day of year y. */
  lemma YearStep(y: int)
    ensures ValidDate(Date(y, 12, 31)) && ValidDate(Date(y + 1, 1, 1))
    ensures DayNumber(Date(y + 1, 1, 1)) == DayNumber(Date(y, 12, 31)) + 1
  {
    LeapStep(y);
  }

  // ---------------------------------------------------------------------------
  // minusDays
  // ---------------------------------------------------------------------------

  /** The day before d, borrowing from the month and the year when needed. */
  function PrevDay(d: Date): (r: Date)
    requires ValidDate(d)
    ensures ValidDate(r)
    ensures Before(r, d)
    ensures DayNumber(r) == DayNumber(d) - 1
  {
    if d.day > 1 then Date(d.year, d.month, d.day - 1)
    else if d.month > 1 then
      MonthStep(d.year, d.month - 1);
      Date(d.year, d.month - 1, DaysInMonth(d.year, d.month - 1))
    else
      YearStep(d.year - 1);
      Date(d.year - 1, 12, 31)
  }

  /** LocalDate.minusDays(n) for n >= 0: the date n days before d. */
  function MinusDays(d: Date, n: nat): (r: Date)
    requires ValidDate(d)
    ensures ValidDate(r)
    ensures DayNumber(r) == DayNumber(d) - n
    ensures n > 0 ==> Before(r, d)
    decreases n
  {
    if n == 0 then d else MinusDays(PrevDay(d), n - 1)
  }

  // ---------------------------------------------------------------------------
  // minusMonths
  // ---------------------------------------------------------------------------

  /**
   * LocalDate.minusMonths(n): move the month count back by n (floor division
   * by 12 borrows from the year), then resolve the day to the previous valid
   * one, i.e. clamp it to the last day of the target month.
   */
  function MinusMonths(d: Date, n: int): (r: Date)
    requires ValidDate(d)
    ensures ValidDate(r)
    ensures MonthIndex(r) == MonthIndex(d) - n
    ensures r.day <= d.day
    ensures forall k :: r.day < k <= d.day ==> !ValidDate(Date(r.year, r.month, k))
    ensures n > 0 ==> Before(r, d)
  {
    var months := MonthIndex(d) - n;
    var y := months / 12;
    var m := months % 12 + 1;
    Date(y, m, Min(d.day, DaysInMonth(y, m)))
  }

  // ---------------------------------------------------------------------------
  // Day numbers order dates exactly as Before does
  // ---------------------------------------------------------------------------

  lemma {:induction false} DaysBeforeMonthGrows(y: int, m1: int, m2: int)
    requires 1 <= m1 < m2 <= 12
    ensures DaysBeforeMonth(y, m1) + DaysInMonth(y, m1) <= DaysBeforeMonth(y, m2)
    decreases m2 - m1
  {
    MonthStep(y, m1);
    if m1 + 1 < m2 {
      DaysBeforeMonthGrows(y, m1 + 1, m2);
    }
  }

  lemma {:induction false} LaterYearLaterDay(a: Date, b: Date)
    requires ValidDate(a) && ValidDate(b) && a.year < b.year
    ensures DayNumber(a) < DayNumber(b)
    decreases b.year - a.year
  {
    var last := Date(a.year, 12, 31);
    YearStep(a.year);
    if a.month < 12 {
      DaysBeforeMonthGrows(a.year, a.month, 12);
    }
    assert DayNumber(a) <= DayNumber(last);
    var next := Date(a.year + 1, 1, 1);
    if a.year + 1 < b.year {
      LaterYearLaterDay(next, b);
    } else if b.month > 1 {
      DaysBeforeMonthGrows(b.year, 1, b.month);
    }
  }

  /** Day numbers are strictly monotone, so they identify a valid date uniquely. */
  lemma DayNumberOrder(a: Date, b: Date)
    requires ValidDate(a) && ValidDate(b)
    ensures Before(a, b) <==> DayNumber(a) < DayNumber(b)
    ensures a == b <==> DayNumber(a) == DayNumber(b)
  {
    if a.year < b.year {
      LaterYearLaterDay(a, b);
    } else if b.year < a.year {
      LaterYearLaterDay(b, a);
    } else if a.month < b.month {
      DaysBeforeMonthGrows(a.year, a.month, b.month);
    } else if b.month < a.month {
      DaysBeforeMonthGrows(a.year, b.month, a.month);
    }
  }

  /** minusDays(n) is the one valid date exactly n days earlier. */
  lemma MinusDaysUnique(d: Date, n: nat, e: Date)
    requires ValidDate(d) && ValidDate(e)
    ensures DayNumber(e) == DayNumber(d) - n <==> e == MinusDays(d, n)
  {
    DayNumberOrder(e, MinusDays(d, n));
  }
}
