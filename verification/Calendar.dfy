/** The proleptic Gregorian calendar, by day numbers; day 0 is 1 January of year 0. */
module Calendar {

  datatype Date = Date(year: int, month: nat, day: nat)

  predicate IsLeap(year: int) {
    year % 4 == 0 && (year % 100 != 0 || year % 400 == 0)
  }

  function DaysInYear(year: int): nat {
    if IsLeap(year) then 366 else 365
  }

  function DaysInMonth(year: int, month: nat): nat {
    if month == 2 then (if IsLeap(year) then 29 else 28)
    else if month in {4, 6, 9, 11} then 30
    else 31
  }

  predicate IsDate(d: Date) {
    1 <= d.month <= 12 && 1 <= d.day <= DaysInMonth(d.year, d.month)
  }

  /** Days between the start of year 0 and that of the year; negative for the years before. */
  function DaysBeforeYear(year: int): (n: int)
    ensures year >= 0 <==> n >= 0
    decreases if year < 0 then -year else year
  {
    if year == 0 then 0
    else if year > 0 then DaysBeforeYear(year - 1) + DaysInYear(year - 1)
    else DaysBeforeYear(year + 1) - DaysInYear(year)
  }

  /** The next year starts when this one has passed, before year 0 as after it. */
  lemma YearPasses(year: int)
    ensures DaysBeforeYear(year + 1) == DaysBeforeYear(year) + DaysInYear(year)
  {}

  /** Counting the leap days in closed form. */
  lemma {:induction false} LeapDays(year: nat)
    ensures DaysBeforeYear(year) == 365 * year + (year + 3) / 4 - (year + 99) / 100 + (year + 399) / 400
  {
    if year > 0 {
      LeapDays(year - 1);
      LeapDaysStep(year - 1);
    }
  }

  lemma LeapDaysStep(y: nat)
    ensures (y + 4) / 4 - (y + 100) / 100 + (y + 400) / 400
            == (y + 3) / 4 - (y + 99) / 100 + (y + 399) / 400 + if IsLeap(y) then 1 else 0
  {
    Quotients(y, 4);
    Quotients(y, 100);
    Quotients(y, 400);
    CenturiesAreMultiplesOfFour(y);
  }

  lemma CenturiesAreMultiplesOfFour(y: nat)
    ensures (y % 400 == 0 ==> y % 100 == 0) && (y % 100 == 0 ==> y % 4 == 0)
  {
    if y % 400 == 0 {
      assert y == 100 * (4 * (y / 400));
    }
    if y % 100 == 0 {
      assert y == 4 * (25 * (y / 100));
    }
  }

  lemma Quotients(y: nat, k: nat)
    requires k in {4, 100, 400}
    ensures (y + k) / k == (y + k - 1) / k + if y % k == 0 then 1 else 0
  {
    var q, r := y / k, y % k;
    assert y == k * q + r;
    if k == 4 {
      assert (y + 4) / 4 == q + 1;
    } else if k == 100 {
      assert (y + 100) / 100 == q + 1;
    } else {
      assert (y + 400) / 400 == q + 1;
    }
  }

  function DaysBeforeMonth(year: int, month: nat): nat {
    if month <= 1 then 0 else DaysBeforeMonth(year, month - 1) + DaysInMonth(year, month - 1)
  }

  /** Days are counted on from the month's first, so that a day past the month's end runs over. */
  function DayNumber(d: Date): int
    requires d.day >= 1
  {
    DaysBeforeYear(d.year) + DaysBeforeMonth(d.year, d.month) + d.day - 1
  }

  predicate Before(a: Date, b: Date) {
    a.year < b.year
    || (a.year == b.year && (a.month < b.month || (a.month == b.month && a.day < b.day)))
  }

  lemma {:induction false} YearsIncrease(a: int, b: int)
    requires a <= b
    ensures DaysBeforeYear(a) + (b - a) <= DaysBeforeYear(b)
    ensures a < b ==> DaysBeforeYear(a) + DaysInYear(a) <= DaysBeforeYear(b)
    decreases b - a
  {
    if a < b {
      YearPasses(a);
      YearsIncrease(a + 1, b);
    }
  }

  lemma {:induction false} MonthsIncrease(year: int, a: nat, b: nat)
    requires 1 <= a <= b
    ensures a < b ==> DaysBeforeMonth(year, a) + DaysInMonth(year, a) <= DaysBeforeMonth(year, b)
    ensures DaysBeforeMonth(year, a) <= DaysBeforeMonth(year, b)
    decreases b - a
  {
    if a < b {
      MonthsIncrease(year, a + 1, b);
    }
  }

  lemma YearHasTwelveMonths(year: int)
    ensures DaysBeforeMonth(year, 13) == DaysInYear(year)
  {
    assert DaysBeforeMonth(year, 2) == DaysBeforeMonth(year, 1) + DaysInMonth(year, 1);
    assert DaysBeforeMonth(year, 3) == DaysBeforeMonth(year, 2) + DaysInMonth(year, 2);
    assert DaysBeforeMonth(year, 4) == DaysBeforeMonth(year, 3) + DaysInMonth(year, 3);
    assert DaysBeforeMonth(year, 5) == DaysBeforeMonth(year, 4) + DaysInMonth(year, 4);
    assert DaysBeforeMonth(year, 6) == DaysBeforeMonth(year, 5) + DaysInMonth(year, 5);
    assert DaysBeforeMonth(year, 7) == DaysBeforeMonth(year, 6) + DaysInMonth(year, 6);
    assert DaysBeforeMonth(year, 8) == DaysBeforeMonth(year, 7) + DaysInMonth(year, 7);
    assert DaysBeforeMonth(year, 9) == DaysBeforeMonth(year, 8) + DaysInMonth(year, 8);
    assert DaysBeforeMonth(year, 10) == DaysBeforeMonth(year, 9) + DaysInMonth(year, 9);
    assert DaysBeforeMonth(year, 11) == DaysBeforeMonth(year, 10) + DaysInMonth(year, 10);
    assert DaysBeforeMonth(year, 12) == DaysBeforeMonth(year, 11) + DaysInMonth(year, 11);
    assert DaysBeforeMonth(year, 13) == DaysBeforeMonth(year, 12) + DaysInMonth(year, 12);
  }

  lemma DateWithinYear(d: Date)
    requires IsDate(d)
    ensures DaysBeforeYear(d.year) <= DayNumber(d) < DaysBeforeYear(d.year + 1)
  {
    YearPasses(d.year);
    MonthsIncrease(d.year, d.month, 13);
    YearHasTwelveMonths(d.year);
  }

  /** Day numbers follow the calendar order. */
  lemma DayNumberIncreases(a: Date, b: Date)
    requires IsDate(a) && IsDate(b) && Before(a, b)
    ensures DayNumber(a) < DayNumber(b)
  {
    if a.year < b.year {
      DateWithinYear(a);
      DateWithinYear(b);
      YearsIncrease(a.year + 1, b.year);
    } else if a.month < b.month {
      MonthsIncrease(a.year, a.month, b.month);
    }
  }

  /** The year a day falls in, from an earlier year on. */
  function YearFrom(year: int, n: int): (y: int)
    requires DaysBeforeYear(year) <= n
    ensures y >= year && DaysBeforeYear(y) <= n < DaysBeforeYear(y + 1)
    decreases n - DaysBeforeYear(year)
  {
    YearPasses(year);
    if DaysBeforeYear(year + 1) <= n then YearFrom(year + 1, n) else year
  }

  function MonthFrom(year: int, month: nat, n: nat): (m: nat)
    requires 1 <= month <= 12 && DaysBeforeMonth(year, month) <= n < DaysInYear(year)
    ensures month <= m <= 12 && DaysBeforeMonth(year, m) <= n < DaysBeforeMonth(year, m) + DaysInMonth(year, m)
    decreases 12 - month
  {
    YearHasTwelveMonths(year);
    if month == 12 || n < DaysBeforeMonth(year, month) + DaysInMonth(year, month) then month
    else MonthFrom(year, month + 1, n)
  }

  lemma {:induction false} YearsGoBack(year: int)
    requires year <= 0
    ensures DaysBeforeYear(year) <= year
    decreases -year
  {
    if year < 0 {
      YearsGoBack(year + 1);
    }
  }

  function YearOf(n: int): (y: int)
    ensures DaysBeforeYear(y) <= n < DaysBeforeYear(y + 1)
    ensures n >= 0 <==> y >= 0
  {
    if n >= 0 then YearFrom(0, n)
    else
      YearsGoBack(n);
      YearFrom(n, n)
  }

  function DateOf(n: int): (d: Date)
    ensures IsDate(d) && DayNumber(d) == n
    ensures n >= 0 <==> d.year >= 0
  {
    var year := YearOf(n);
    YearPasses(year);
    var rest := n - DaysBeforeYear(year);
    var month := MonthFrom(year, 1, rest);
    Date(year, month, rest - DaysBeforeMonth(year, month) + 1)
  }

  /** Every valid date is the date of its day number. */
  lemma DateIsUnique(d: Date)
    requires IsDate(d)
    ensures DateOf(DayNumber(d)) == d
  {
    var e := DateOf(DayNumber(d));
    if e != d {
      if Before(d, e) {
        DayNumberIncreases(d, e);
      } else {
        DayNumberIncreases(e, d);
      }
    }
  }
}
