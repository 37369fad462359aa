/**
 * Gregorian calendar arithmetic in the form `Date` gives it: month lengths,
 * day numbers counted from 1 January 1970, and weekdays with 0 for Sunday.
 */
module Calendar {

  /** A month index as `Date.getMonth` gives it: 0 for January to 11 for December. */
  type Month = m: int | 0 <= m < 12

  datatype Date = Date(year: int, month: Month, day: int)

  predicate IsLeapYear(y: int) {
    (y % 4 == 0 && y % 100 != 0) || y % 400 == 0
  }

  /** `new Date(year, month + 1, 0).getDate()`. */
  function DaysInMonth(y: int, m: Month): (n: int)
    ensures 28 <= n <= 31
    ensures n == 29 <==> m == 1 && IsLeapYear(y)
  {
    if m == 1 then (if IsLeapYear(y) then 29 else 28)
    else if m == 3 || m == 5 || m == 8 || m == 10 then 30
    else 31
  }

  predicate ValidDate(d: Date) {
    1 <= d.day <= DaysInMonth(d.year, d.month)
  }

  /** Days in the months of year `y` before month `m` (`m == 12` gives the length of the year). */
  function DaysBeforeMonth(y: int, m: int): int
    requires 0 <= m <= 12
  {
    [0, 31, 59, 90, 120, 151, 181, 212, 243, 273, 304, 334, 365][m] + (if m >= 2 && IsLeapYear(y) then 1 else 0)
  }

  /** Each month starts where the previous one ends. */
  lemma MonthStartsAfterPrevious(y: int, m: Month)
    ensures DaysBeforeMonth(y, m + 1) == DaysBeforeMonth(y, m) + DaysInMonth(y, m)
  {
  }

  /** Days from 1 January of year 0 to 1 January of year `y` (floor division counts the leap years). */
  function DaysBeforeYear(y: int): int {
    365 * y + (y + 3) / 4 - (y + 99) / 100 + (y + 399) / 400
  }

  /** Days since 1 January 1970 (the day number `Date` counts in). */
  function DayNumber(d: Date): int {
    DaysBeforeYear(d.year) + DaysBeforeMonth(d.year, d.month) + d.day - 1 - DaysBeforeYear(1970)
  }

  /** `getDay`: 0 for Sunday; 1 January 1970 was a Thursday. */
  function Weekday(d: Date): (w: int)
    ensures 0 <= w < 7
  {
    (DayNumber(d) + 4) % 7
  }

  /** The calendar day after `d`. */
  function NextDate(d: Date): (r: Date)
    requires ValidDate(d)
    ensures ValidDate(r)
  {
    if d.day < DaysInMonth(d.year, d.month) then Date(d.year, d.month, d.day + 1)
    else if d.month < 11 then Date(d.year, d.month + 1, 1)
    else Date(d.year + 1, 0, 1)
  }

  /** Euclidean remainders are unique. */
  lemma ModUnique(a: int, c: int, q: int, r: int)
    requires c > 0 && a == q * c + r && 0 <= r < c
    ensures a % c == r
  {
    var q0, r0 := a / c, a % c;
    assert a == q0 * c + r0;
    var k := q - q0;
    assert k * c == r0 - r by {
      assert q * c - q0 * c == k * c;
    }
  }

  /** A multiple of 400 is a multiple of 100, and a multiple of 100 a multiple of 4. */
  lemma DivisibilityChain(y: int)
    ensures y % 400 == 0 ==> y % 100 == 0
    ensures y % 100 == 0 ==> y % 4 == 0
  {
    if y % 400 == 0 {
      var q := y / 400;
      assert y == (4 * q) * 100 + 0;
      ModUnique(y, 100, 4 * q, 0);
    }
    if y % 100 == 0 {
      var q := y / 100;
      assert y == (25 * q) * 4 + 0;
      ModUnique(y, 4, 25 * q, 0);
    }
  }

  /** Euclidean quotients are unique. */
  lemma DivUnique(a: int, c: int, q: int, r: int)
    requires c > 0 && a == q * c + r && 0 <= r < c
    ensures a / c == q
  {
    var q0, r0 := a / c, a % c;
    assert a == q0 * c + r0;
    var k := q - q0;
    assert k * c == r0 - r by {
      assert q * c - q0 * c == k * c;
    }
  }

  /** Moving from `y` to `y + 1` passes one more multiple of `k` exactly when `k` divides `y`. */
  lemma DivStep(y: int, k: int)
    requires k > 0
    ensures (y + k) / k - (y + k - 1) / k == if y % k == 0 then 1 else 0
  {
    var q, r := y / k, y % k;
    assert y == q * k + r;
    assert y + k == (q + 1) * k + r;
    DivUnique(y + k, k, q + 1, r);
    if r == 0 {
      assert y + k - 1 == q * k + (k - 1);
      DivUnique(y + k - 1, k, q, k - 1);
    } else {
      assert y + k - 1 == (q + 1) * k + (r - 1);
      DivUnique(y + k - 1, k, q + 1, r - 1);
    }
  }

  /** Moving from `y` to `y + 1` passes one more multiple of 4, 100 or 400 exactly when it divides `y`. */
  lemma MultiplesStep(y: int)
    ensures (y + 4) / 4 - (y + 3) / 4 == if y % 4 == 0 then 1 else 0
    ensures (y + 100) / 100 - (y + 99) / 100 == if y % 100 == 0 then 1 else 0
    ensures (y + 400) / 400 - (y + 399) / 400 == if y % 400 == 0 then 1 else 0
  {
    DivStep(y, 4);
    DivStep(y, 100);
    DivStep(y, 400);
  }

  /** A year has 366 days when it is a leap year and 365 otherwise. */
  lemma YearLength(y: int)
    ensures DaysBeforeYear(y + 1) - DaysBeforeYear(y) == if IsLeapYear(y) then 366 else 365
    ensures DaysBeforeMonth(y, 12) == if IsLeapYear(y) then 366 else 365
  {
    MultiplesStep(y);
    DivisibilityChain(y);
  }

  /** Consecutive calendar days have consecutive day numbers, across month and year ends. */
  lemma NextDateAdvancesOne(d: Date)
    requires ValidDate(d)
    ensures DayNumber(NextDate(d)) == DayNumber(d) + 1
  {
    if d.day < DaysInMonth(d.year, d.month) {
    } else if d.month < 11 {
      MonthStartsAfterPrevious(d.year, d.month);
    } else {
      YearLength(d.year);
    }
  }

  /** The weekday of the next calendar day is the next weekday. */
  lemma NextDateNextWeekday(d: Date)
    requires ValidDate(d)
    ensures Weekday(NextDate(d)) == (Weekday(d) + 1) % 7
  {
    NextDateAdvancesOne(d);
    WeekdayStep(DayNumber(d));
  }

  /** Within a month, the next day number falls on the following weekday. */
  lemma SameMonthNextWeekday(y: int, m: Month, d: int)
    ensures Weekday(Date(y, m, d + 1)) == (Weekday(Date(y, m, d)) + 1) % 7
  {
    WeekdayStep(DayNumber(Date(y, m, d)));
  }

  lemma WeekdayStep(n: int)
    ensures (n + 1 + 4) % 7 == ((n + 4) % 7 + 1) % 7
  {
  }

  /** 1 January 2024 was a Monday. */
  lemma FirstOf2024IsMonday()
    ensures Weekday(Date(2024, 0, 1)) == 1
  {
  }

  /** The first week of 2024 runs Monday 1 January to Sunday 7 January. */
  lemma FirstWeekOf2024()
    ensures Weekday(Date(2024, 0, 1)) == 1 && Weekday(Date(2024, 0, 2)) == 2 && Weekday(Date(2024, 0, 3)) == 3
    ensures Weekday(Date(2024, 0, 4)) == 4 && Weekday(Date(2024, 0, 5)) == 5 && Weekday(Date(2024, 0, 6)) == 6
    ensures Weekday(Date(2024, 0, 7)) == 0
  {
    FirstOf2024IsMonday();
    SameMonthNextWeekday(2024, 0, 1);
    SameMonthNextWeekday(2024, 0, 2);
    SameMonthNextWeekday(2024, 0, 3);
    SameMonthNextWeekday(2024, 0, 4);
    SameMonthNextWeekday(2024, 0, 5);
    SameMonthNextWeekday(2024, 0, 6);
  }
}
