/** The ISO week label of the weekly monitor, against the week date of section 4.1.4 of ISO 8601:2004. */
module IsoWeek {
  import opened Calendar
  import opened Decimals

  /** Weeks run from Monday to Sunday; day 0 is a Saturday. */
  function WeekIndex(n: int): int {
    (n + 5) / 7
  }

  function MondayOf(n: int): (m: int)
    ensures m <= n < m + 7
  {
    7 * WeekIndex(n) - 5
  }

  /** Week 1 of a year is the week that holds 4 January. */
  function WeekOne(year: int): int {
    MondayOf(DayNumber(Date(year, 1, 4)))
  }

  /** The day belongs to this week-numbering year and week. */
  predicate InWeek(n: int, year: int, week: int) {
    WeekOne(year) <= MondayOf(n) < WeekOne(year + 1) && MondayOf(n) == WeekOne(year) + 7 * (week - 1)
  }

  datatype Label = Label(year: int, week: int)

  predicate LabelBefore(a: Label, b: Label) {
    a.year < b.year || (a.year == b.year && a.week < b.week)
  }

  /** `Date.UTC` takes the years 0 to 99 for years of the twentieth century. */
  function UtcDay(year: int, month: nat, day: nat): int
    requires day >= 1
  {
    DayNumber(Date(if 0 <= year < 100 then 1900 + year else year, month, day))
  }

  /** `getUTCDay`, which counts from Sunday. */
  function DayOfWeek(n: int): (d: nat)
    ensures d < 7
  {
    (n + 6) % 7
  }

  function CeilOfWeeks(days: int): int {
    (days + 6) / 7
  }

  lemma YearStartsByDayNumber(year: int)
    ensures DayNumber(Date(year, 1, 1)) == DaysBeforeYear(year)
    ensures WeekIndex(DayNumber(Date(year, 1, 4))) == (DaysBeforeYear(year) + 8) / 7
  {
    assert DayNumber(Date(year, 1, 4)) == DaysBeforeYear(year) + 3;
  }

  /** The same in plain arithmetic: `d` and `e` are the first days of a year and the next, `w` counts weeks. */
  lemma ThursdayInYear(d: int, e: int, w: int, t: int)
    requires t == 7 * w - 2 && d <= t < e
    ensures (d + 8) / 7 <= w < (e + 8) / 7 && w == (d + 8) / 7 + (t - d) / 7
  {
    var a, b := (d + 8) / 7, (e + 8) / 7;
    assert 7 * a <= d + 8 < 7 * a + 7 && 7 * b <= e + 8 < 7 * b + 7;
    var f := 7 * a - 2 - d;
    assert 0 <= f < 7 && t - d == 7 * (w - a) + f;
    assert (7 * (w - a) + f) / 7 == w - a;
  }

  lemma InWeekByIndex(n: int, y: int, w: int, a: int, b: int, c: int)
    requires WeekIndex(n) == w && WeekIndex(DayNumber(Date(y, 1, 4))) == a
             && WeekIndex(DayNumber(Date(y + 1, 1, 4))) == b
    requires a <= w < b && w == a + c
    ensures InWeek(n, y, c + 1)
  {
  }

  lemma WeeksRoundUp(days: int)
    ensures CeilOfWeeks(days + 1) == days / 7 + 1
  {
  }

  lemma WeeksInYear(d: int, e: int)
    requires e == d + 365 || e == d + 366
    ensures (d + 8) / 7 + 52 <= (e + 8) / 7 <= (d + 8) / 7 + 53
  {
  }

  /** The Thursday of a week lies in the year the week is numbered in. */
  lemma ThursdayDecides(n: int, t: int, y: int)
    requires t == MondayOf(n) + 3 && DaysBeforeYear(y) <= t < DaysBeforeYear(y + 1)
    ensures InWeek(n, y, (t - DaysBeforeYear(y)) / 7 + 1)
  {
    var d, e, w := DaysBeforeYear(y), DaysBeforeYear(y + 1), WeekIndex(n);
    YearStartsByDayNumber(y);
    YearStartsByDayNumber(y + 1);
    ThursdayInYear(d, e, w, t);
    InWeekByIndex(n, y, w, (d + 8) / 7, (e + 8) / 7, (t - d) / 7);
  }

  lemma WeekOneIncreases(y: int, z: int)
    requires y <= z
    ensures WeekOne(y) <= WeekOne(z)
    ensures y < z ==> WeekOne(y) + 7 * 51 <= WeekOne(z)
  {
    YearStartsByDayNumber(y);
    YearStartsByDayNumber(z);
    YearsIncrease(y, z);
  }

  /** A day belongs to one week of one year only, so a right label is the only right one. */
  lemma WeekIsUnique(n: int, y: int, w: int, z: int, x: int)
    requires InWeek(n, y, w) && InWeek(n, z, x)
    ensures y == z && w == x
  {
    if y < z {
      WeekOneIncreases(y + 1, z);
    } else if z < y {
      WeekOneIncreases(z + 1, y);
    }
  }

  lemma ThursdayOfWeek(n: int, dayOfWeek: nat)
    requires dayOfWeek == if DayOfWeek(n) == 0 then 7 else DayOfWeek(n)
    ensures n + 4 - dayOfWeek == MondayOf(n) + 3
  {
    var q := (n + 5) / 7;
    assert n + 6 == 7 * q + (n + 6 - 7 * q) && 1 <= n + 6 - 7 * q <= 7;
  }

  /** The days that get a wrong label: those of the years 0 to 99, and the first three of year 100. */
  predicate Mislabelled(n: int) {
    0 <= n < WeekOne(100)
  }

  method FormatIsoWeek(date: Date) returns (w: Label)
    requires IsDate(date)
    ensures InWeek(DayNumber(date), w.year, w.week) <==> !Mislabelled(DayNumber(date))
  {
    var normalized := UtcDay(date.year, date.month, date.day);
    ghost var start := normalized;
    var dayOfWeek := DayOfWeek(normalized);
    if dayOfWeek == 0 {
      dayOfWeek := 7;
    }
    ThursdayOfWeek(normalized, dayOfWeek);
    normalized := normalized + 4 - dayOfWeek;
    var year := YearOf(normalized);
    var yearStart: int := UtcDay(year, 1, 1);
    w := Label(year, CeilOfWeeks(normalized - yearStart + 1));
    LabelIsRight(date, start, normalized, w);
  }

  /** Right before year 0 and from Monday of the first week of year 100 on, and wrong between. */
  lemma LabelIsRight(date: Date, start: int, t: int, w: Label)
    requires IsDate(date) && start == UtcDay(date.year, date.month, date.day) && t == MondayOf(start) + 3
    requires w == Label(YearOf(t), CeilOfWeeks(t - UtcDay(YearOf(t), 1, 1) + 1))
    ensures InWeek(DayNumber(date), w.year, w.week) <==> !Mislabelled(DayNumber(date))
  {
    YearIsOf(date);
    if 0 <= date.year < 100 {
      ThursdayFarOff(date, start, t);
    } else if 0 <= w.year < 100 {
      WeeksFarOff(start, t, w);
    } else {
      ThursdayDecides(start, t, w.year);
      YearStartsByDayNumber(w.year);
      WeeksRoundUp(t - DaysBeforeYear(w.year));
      if date.year >= 100 {
        WeekOneIncreases(100, w.year);
      }
    }
  }

  lemma HundredStarts()
    ensures WeekOne(100) == 36528 && DaysBeforeYear(100) == 36525 && DaysBeforeYear(1900) == 693961
  {
    StartOf(100, 36525);
    StartOf(1900, 693961);
    YearStartsByDayNumber(100);
  }

  lemma StartOf(year: nat, d: nat)
    requires d == 365 * year + (year + 3) / 4 - (year + 99) / 100 + (year + 399) / 400
    ensures DaysBeforeYear(year) == d
  {
    LeapDays(year);
  }

  lemma YearIsOf(date: Date)
    requires IsDate(date)
    ensures date.year >= 100 <==> DayNumber(date) >= 36525
    ensures date.year >= 0 <==> DayNumber(date) >= 0
  {
    DateWithinYear(date);
    HundredStarts();
    if date.year >= 100 {
      YearsIncrease(100, date.year);
    } else {
      YearsIncrease(date.year + 1, 100);
    }
    if date.year < 0 {
      YearsIncrease(date.year + 1, 0);
    }
  }

  /** A date of the first hundred years gets a year of the twentieth century. */
  lemma ThursdayFarOff(date: Date, start: int, t: int)
    requires IsDate(date) && 0 <= date.year < 100
    requires start == UtcDay(date.year, date.month, date.day) && t == MondayOf(start) + 3
    ensures Mislabelled(DayNumber(date))
    ensures forall week: int :: !InWeek(DayNumber(date), YearOf(t), week)
  {
    YearIsOf(date);
    HundredStarts();
    YearsIncrease(1900, 1900 + date.year);
    if YearOf(t) < 101 {
      YearsIncrease(YearOf(t) + 1, 1900);
    }
    WeekOneIncreases(101, YearOf(t));
  }

  /** The first days of year 100 belong to a week of year 99, whose start is mistaken for that of 1999. */
  lemma WeeksFarOff(n: int, t: int, w: Label)
    requires (n < 0 || n >= 36525) && t == MondayOf(n) + 3 && w.year == YearOf(t) && 0 <= w.year < 100
    requires w.week == CeilOfWeeks(t - UtcDay(w.year, 1, 1) + 1)
    ensures Mislabelled(n) && !InWeek(n, w.year, w.week)
  {
    HundredStarts();
    YearsIncrease(w.year + 1, 100);
    YearStartsByDayNumber(1900 + w.year);
    YearsIncrease(1900, 1900 + w.year);
  }

  /** Two days share a label exactly when they share a Monday. */
  lemma SameLabelSameMonday(n: int, a: Label, m: int, b: Label)
    requires InWeek(n, a.year, a.week) && InWeek(m, b.year, b.week)
    ensures a == b <==> MondayOf(n) == MondayOf(m)
    ensures LabelBefore(a, b) <==> MondayOf(n) < MondayOf(m)
  {
    if a.year < b.year {
      WeekOneIncreases(a.year + 1, b.year);
    } else if b.year < a.year {
      WeekOneIncreases(b.year + 1, a.year);
    }
  }

  /** Weeks are numbered from 1 to 52 or 53, one after the other, and 4 January is in week 1. */
  lemma WeeksAreNumbered(n: int, a: Label)
    requires InWeek(n, a.year, a.week)
    ensures 1 <= a.week <= 53
    ensures InWeek(n + 7, a.year, a.week + 1) || InWeek(n + 7, a.year + 1, 1)
    ensures n == DayNumber(Date(a.year, 1, 4)) ==> a.week == 1
  {
    YearStartsByDayNumber(a.year);
    YearStartsByDayNumber(a.year + 1);
    WeeksInYear(DaysBeforeYear(a.year), DaysBeforeYear(a.year + 1));
    WeekOneIncreases(a.year + 1, a.year + 2);
    assert WeekIndex(n + 7) == WeekIndex(n) + 1;
  }

  /** A number as a template prints it, with its sign. */
  function SignedDecimal(n: int): (s: string)
    ensures |s| >= 1
  {
    if n >= 0 then Decimal(n) else ['-'] + Decimal(-n)
  }

  /** The label as it is printed: the week is padded to two digits, the year is not padded. */
  function Text(w: Label): string
    requires 1 <= w.week <= 53
  {
    SignedDecimal(w.year) + ['-', 'W', Digit(w.week / 10), Digit(w.week % 10)]
  }

  lemma {:induction false} DecimalStarts(n: nat)
    ensures IsDigit(Decimal(n)[0])
  {
    if n >= 10 {
      DecimalStarts(n / 10);
      assert Decimal(n)[0] == Decimal(n / 10)[0];
    }
  }

  lemma SignTells(n: int)
    ensures SignedDecimal(n)[0] == '-' <==> n < 0
  {
    if n >= 0 {
      DecimalStarts(n);
    }
  }

  lemma SignedIsInjective(a: int, b: int)
    requires SignedDecimal(a) == SignedDecimal(b)
    ensures a == b
  {
    SignTells(a);
    SignTells(b);
    if a >= 0 && b >= 0 {
      DecimalIsInjective(a, b);
    } else if a < 0 && b < 0 {
      assert SignedDecimal(a)[1..] == Decimal(-a) && SignedDecimal(b)[1..] == Decimal(-b);
      DecimalIsInjective(-a, -b);
    }
  }

  lemma TextIsInjective(a: Label, b: Label)
    requires 1 <= a.week <= 53 && 1 <= b.week <= 53 && Text(a) == Text(b)
    ensures a == b
  {
    var x, y := SignedDecimal(a.year), SignedDecimal(b.year);
    assert Text(a)[..|Text(a)| - 4] == x && Text(b)[..|Text(b)| - 4] == y;
    SignedIsInjective(a.year, b.year);
    assert Text(a)[|x| + 2] == Digit(a.week / 10) && Text(a)[|x| + 3] == Digit(a.week % 10);
    assert Text(b)[|y| + 2] == Digit(b.week / 10) && Text(b)[|y| + 3] == Digit(b.week % 10);
  }

  lemma FourDigits(y: nat)
    ensures |Decimal(y)| == 4 <==> 1000 <= y < 10000
  {
    if y >= 10000 {
      assert |Decimal(y)| == |Decimal(y / 10000)| + 4 by {
        assert y / 10 / 10 / 10 / 10 == y / 10000;
        assert |Decimal(y)| == |Decimal(y / 10)| + 1 == |Decimal(y / 10 / 10)| + 2;
        assert |Decimal(y / 10 / 10)| == |Decimal(y / 10 / 10 / 10)| + 1 == |Decimal(y / 10 / 10 / 10 / 10)| + 2;
      }
    } else if y >= 1000 {
      assert |Decimal(y)| == |Decimal(y / 10)| + 1 == |Decimal(y / 10 / 10)| + 2 == |Decimal(y / 10 / 10 / 10)| + 3;
    } else if y >= 100 {
      assert |Decimal(y)| == |Decimal(y / 10)| + 1 == |Decimal(y / 10 / 10)| + 2;
    }
  }

  /** The text has the form YYYY-Www exactly for four-digit years. */
  lemma FourDigitYears(w: Label)
    requires 1 <= w.week <= 53
    ensures |Text(w)| == 8 && IsDigit(Text(w)[0]) <==> 1000 <= w.year < 10000
  {
    assert Text(w)[0] == SignedDecimal(w.year)[0];
    if w.year >= 0 {
      FourDigits(w.year);
      DecimalStarts(w.year);
    }
  }
}
