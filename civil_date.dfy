/** Civil (proleptic Gregorian) calendar dates, their order, and the
    one-month / one-year steps that a JavaScript `Date` takes when its
    `setMonth(getMonth() + 1)` or `setFullYear(getFullYear() + 1)` is called.
    JavaScript keeps the day-of-month and lets a day past the end of the
    target month run on into the following month (31 January plus one month
    is 3 March, or 2 March in a leap year). */
module CivilDate {

  datatype Date = Date(year: nat, month: nat, day: nat)

  predicate IsLeapYear(y: nat) {
    y % 4 == 0 && (y % 100 != 0 || y % 400 == 0)
  }

  function DaysInMonth(y: nat, m: nat): (n: nat)
    requires 1 <= m <= 12
    ensures 28 <= n <= 31
    ensures n == 29 <==> m == 2 && IsLeapYear(y)
  {
    if m == 2 then (if IsLeapYear(y) then 29 else 28)
    else if m == 4 || m == 6 || m == 9 || m == 11 then 30
    else 31
  }

  predicate ValidDate(d: Date) {
    1 <= d.month <= 12 && 1 <= d.day <= DaysInMonth(d.year, d.month)
  }

  /** A day that exists in the calendar: what a DATEONLY column holds. */
  type CivilDate = d: Date | ValidDate(d) witness Date(1970, 1, 1)

  /** Strictly earlier, comparing year, then month, then day. */
  predicate Before(a: Date, b: Date) {
    || a.year < b.year
    || (a.year == b.year && a.month < b.month)
    || (a.year == b.year && a.month == b.month && a.day < b.day)
  }

  /** Earlier or the same day. */
  predicate NotAfter(a: Date, b: Date) {
    !Before(b, a)
  }

  lemma NotAfterTransitive(a: Date, b: Date, c: Date)
    requires NotAfter(a, b) && NotAfter(b, c)
    ensures NotAfter(a, c)
  {
  }

  // ---------------------------------------------------------------------
  // Day numbers: the reference against which the steps are stated.
  // ---------------------------------------------------------------------

  function DaysInYear(y: nat): nat {
    if IsLeapYear(y) then 366 else 365
  }

  /** Days from 1 January of year 0 to 1 January of year y. */
  function DaysBeforeYear(y: nat): nat {
    if y == 0 then 0 else DaysBeforeYear(y - 1) + DaysInYear(y - 1)
  }

  /** Days from 1 January of year y to the first day of month m
      (m == 13 stands for 1 January of the following year). */
  function DaysBeforeMonth(y: nat, m: nat): nat
    requires 1 <= m <= 13
  {
    if m == 1 then 0 else DaysBeforeMonth(y, m - 1) + DaysInMonth(y, m - 1)
  }

  /** The ordinal of day d.day of month (d.year, d.month), counted from
      1 January of year 0. A day number past the end of the month is counted
      on into the following months, exactly as ECMAScript's MakeDay does. */
  function DayNumber(d: Date): int
    requires 1 <= d.month <= 12
  {
    DaysBeforeYear(d.year) + DaysBeforeMonth(d.year, d.month) + d.day - 1
  }

  lemma WholeYear(y: nat)
    ensures DaysBeforeMonth(y, 13) == DaysInYear(y)
  {
    assert DaysBeforeMonth(y, 2) == 31;
    assert DaysBeforeMonth(y, 3) == 31 + DaysInMonth(y, 2);
    assert DaysBeforeMonth(y, 4) == 62 + DaysInMonth(y, 2);
    assert DaysBeforeMonth(y, 5) == 92 + DaysInMonth(y, 2);
    assert DaysBeforeMonth(y, 6) == 123 + DaysInMonth(y, 2);
    assert DaysBeforeMonth(y, 7) == 153 + DaysInMonth(y, 2);
    assert DaysBeforeMonth(y, 8) == 184 + DaysInMonth(y, 2);
    assert DaysBeforeMonth(y, 9) == 215 + DaysInMonth(y, 2);
    assert DaysBeforeMonth(y, 10) == 245 + DaysInMonth(y, 2);
    assert DaysBeforeMonth(y, 11) == 276 + DaysInMonth(y, 2);
    assert DaysBeforeMonth(y, 12) == 306 + DaysInMonth(y, 2);
    assert DaysBeforeMonth(y, 13) == 337 + DaysInMonth(y, 2);
  }

  /** The first day of the month that follows (y, m); December rolls over
      into January of the next year. */
  function MonthAfter(y: nat, m: nat): (r: CivilDate)
    requires 1 <= m <= 12
    ensures r.day == 1
    ensures Before(Date(y, m, DaysInMonth(y, m)), r)
    ensures DayNumber(r) == DayNumber(Date(y, m, 1)) + DaysInMonth(y, m)
  {
    if m == 12 then
      WholeYear(y);
      Date(y + 1, 1, 1)
    else
      Date(y, m + 1, 1)
  }

  /** Day d (d >= 1) of month (y, m), where a day past the end of the month
      runs on into the following months. */
  function Normalize(y: nat, m: nat, d: nat): (r: CivilDate)
    requires 1 <= m <= 12 && 1 <= d
    ensures DayNumber(r) == DayNumber(Date(y, m, 1)) + d - 1
    ensures r.year > y || (r.year == y && r.month >= m)
    ensures d <= DaysInMonth(y, m) <==> r == Date(y, m, d)
    decreases d
  {
    if d <= DaysInMonth(y, m) then Date(y, m, d)
    else
      var next := MonthAfter(y, m);
      Normalize(next.year, next.month, d - DaysInMonth(y, m))
  }

  /** `setMonth(getMonth() + 1)`: the same day-of-month one month later. When
      the next month is too short, the surplus days run on into the month
      after it. The step always moves forward by exactly as many days as the
      starting month has. */
  function AddOneMonth(d: CivilDate): (r: CivilDate)
    ensures Before(d, r)
    ensures DayNumber(r) == DayNumber(d) + DaysInMonth(d.year, d.month)
    ensures var t := MonthAfter(d.year, d.month);
      && (d.day <= DaysInMonth(t.year, t.month) <==> r == Date(t.year, t.month, d.day))
      && (d.day > DaysInMonth(t.year, t.month) ==>
            var u := MonthAfter(t.year, t.month);
            r == Date(u.year, u.month, d.day - DaysInMonth(t.year, t.month)))
  {
    var t := MonthAfter(d.year, d.month);
    var u := MonthAfter(t.year, t.month);
    assert d.day > DaysInMonth(t.year, t.month) ==>
      d.day - DaysInMonth(t.year, t.month) <= DaysInMonth(u.year, u.month);
    Normalize(t.year, t.month, d.day)
  }

  /** `setFullYear(getFullYear() + 1)`: the same month and day one year later,
      except that 29 February, which the next year lacks, becomes 1 March. */
  function AddOneYear(d: CivilDate): (r: CivilDate)
    ensures Before(d, r)
    ensures DayNumber(r) == DayNumber(Date(d.year + 1, d.month, 1)) + d.day - 1
    ensures !(d.month == 2 && d.day == 29) <==> r == Date(d.year + 1, d.month, d.day)
    ensures d.month == 2 && d.day == 29 ==> r == Date(d.year + 1, 3, 1)
  {
    Normalize(d.year + 1, d.month, d.day)
  }

  // ---------------------------------------------------------------------
  // The calendar order is the order of day numbers.
  // ---------------------------------------------------------------------

  lemma {:induction false} YearsAscend(y1: nat, y2: nat)
    requires y1 < y2
    ensures DaysBeforeYear(y1) + DaysInYear(y1) <= DaysBeforeYear(y2)
    decreases y2
  {
    if y1 + 1 < y2 {
      YearsAscend(y1, y2 - 1);
    }
  }

  lemma {:induction false} MonthsAscend(y: nat, m1: nat, m2: nat)
    requires 1 <= m1 < m2 <= 13
    ensures DaysBeforeMonth(y, m1) + DaysInMonth(y, m1) <= DaysBeforeMonth(y, m2)
    decreases m2
  {
    if m1 + 1 < m2 {
      MonthsAscend(y, m1, m2 - 1);
    }
  }

  lemma EarlierHasSmallerDayNumber(a: CivilDate, b: CivilDate)
    requires Before(a, b)
    ensures DayNumber(a) < DayNumber(b)
  {
    if a.year < b.year {
      MonthsAscend(a.year, a.month, 13);
      WholeYear(a.year);
      YearsAscend(a.year, b.year);
    } else if a.month < b.month {
      MonthsAscend(a.year, a.month, b.month);
    }
  }

  /** Comparing dates field by field agrees with comparing their day numbers. */
  lemma ChronologicalOrder(a: CivilDate, b: CivilDate)
    ensures Before(a, b) <==> DayNumber(a) < DayNumber(b)
    ensures NotAfter(a, b) <==> DayNumber(a) <= DayNumber(b)
  {
    if Before(a, b) {
      EarlierHasSmallerDayNumber(a, b);
    } else if Before(b, a) {
      EarlierHasSmallerDayNumber(b, a);
    }
  }

  /** Worked cases of the JavaScript month rollover: 31 January plus one
      month overflows February. */
  lemma MonthRolloverExamples()
    ensures AddOneMonth(Date(2025, 1, 31)) == Date(2025, 3, 3)
    ensures AddOneMonth(Date(2024, 1, 31)) == Date(2024, 3, 2)
    ensures AddOneMonth(Date(2025, 1, 15)) == Date(2025, 2, 15)
    ensures AddOneMonth(Date(2024, 12, 31)) == Date(2025, 1, 31)
  {
    assert MonthAfter(2025, 1) == Date(2025, 2, 1) && DaysInMonth(2025, 2) == 28;
    assert MonthAfter(2025, 2) == Date(2025, 3, 1);
    assert MonthAfter(2024, 1) == Date(2024, 2, 1) && DaysInMonth(2024, 2) == 29;
    assert MonthAfter(2024, 2) == Date(2024, 3, 1);
    assert MonthAfter(2024, 12) == Date(2025, 1, 1) && DaysInMonth(2025, 1) == 31;
  }

  /** Worked cases of the year step: 29 February rolls over to 1 March. */
  lemma YearRolloverExamples()
    ensures AddOneYear(Date(2024, 2, 29)) == Date(2025, 3, 1)
    ensures AddOneYear(Date(2024, 2, 28)) == Date(2025, 2, 28)
  {
  }
}
