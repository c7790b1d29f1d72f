/** The part of the proleptic Gregorian calendar that the XIRR calculator and
    its validator use: dates, their order, and stepping by whole months or
    years with the day clamped to the length of the target month, as
    DateTime.AddMonths and DateTime.AddYears do. */
module Calendar {

  datatype Date = Date(year: int, month: int, day: int)

  predicate IsLeapYear(y: int)
  {
    y % 4 == 0 && (y % 100 != 0 || y % 400 == 0)
  }

  function DaysInMonth(y: int, m: int): (days: int)
    requires 1 <= m <= 12
    ensures 28 <= days <= 31
  {
    if m == 2 then (if IsLeapYear(y) then 29 else 28)
    else if m == 4 || m == 6 || m == 9 || m == 11 then 30
    else 31
  }

  predicate Valid(d: Date)
  {
    1 <= d.month <= 12 && 1 <= d.day <= DaysInMonth(d.year, d.month)
  }

  /** A date that exists in the calendar, as every DateTime's date does. */
  type ValidDate = d: Date | Valid(d) witness Date(1, 1, 1)

  /** A date and a time of day (in ticks since midnight); only the date part
      takes part in any comparison the calculator makes. */
  datatype DateTime = DateTime(date: ValidDate, timeOfDay: nat)

  /** Months elapsed since January of year 0. */
  function MonthIndex(d: Date): int
  {
    d.year * 12 + (d.month - 1)
  }

  /** Dates in calendar order: by year, then month, then day. */
  predicate Before(a: Date, b: Date)
  {
    a.year < b.year
    || (a.year == b.year && a.month < b.month)
    || (a.year == b.year && a.month == b.month && a.day < b.day)
  }

  predicate NotAfter(a: Date, b: Date)
  {
    Before(a, b) || a == b
  }

  /** AddMonths: the same day n months later (or earlier), clamped to the
      last day of the target month. */
  function AddMonths(d: Date, n: int): (e: Date)
    requires Valid(d)
    ensures Valid(e)
    ensures MonthIndex(e) == MonthIndex(d) + n
    ensures e.day == if d.day <= DaysInMonth(e.year, e.month) then d.day else DaysInMonth(e.year, e.month)
  {
    var index := MonthIndex(d) + n;
    var year, month := index / 12, index % 12 + 1;
    var last := DaysInMonth(year, month);
    Date(year, month, if d.day <= last then d.day else last)
  }

  /** AddYears: the same day k years later (or earlier); 29 February becomes
      28 February in a common year. */
  function AddYears(d: Date, k: int): (e: Date)
    requires Valid(d)
    ensures Valid(e)
    ensures e.year == d.year + k && e.month == d.month
    ensures e == AddMonths(d, 12 * k)
  {
    assert MonthIndex(AddMonths(d, 12 * k)) == (d.year + k) * 12 + (d.month - 1);
    var last := DaysInMonth(d.year + k, d.month);
    Date(d.year + k, d.month, if d.day <= last then d.day else last)
  }

  /** A date is not after another when its month comes first. */
  lemma BeforeBoundsMonth(a: Date, b: Date)
    requires Valid(a) && Valid(b) && Before(a, b)
    ensures MonthIndex(a) <= MonthIndex(b)
  {
  }

  /** Calendar order is a strict total order on valid dates. */
  lemma BeforeIsStrictTotalOrder(a: Date, b: Date, c: Date)
    ensures !Before(a, a)
    ensures Before(a, b) ==> !Before(b, a)
    ensures Before(a, b) && Before(b, c) ==> Before(a, c)
    ensures Before(a, b) || a == b || Before(b, a)
  {
  }
}
