/**
 * The proleptic Gregorian calendar over day numbers.
 *
 * An engagement date is a UTC midnight, so it is modelled as the number of days since 1970-01-01,
 * the way section 21.4.1 of ECMA-262 counts them. `MakeDay` and `CivilOf` are the two directions
 * that the platform's `Date.UTC` and `getUTC*` accessors offer, and they are shown to be inverse.
 */
module Gregorian {

  datatype Civil = Civil(year: int, month: int, day: int)

  predicate IsLeap(y: int) {
    y % 4 == 0 && (y % 100 != 0 || y % 400 == 0)
  }

  /** The length of a month, 1 for January. */
  function MonthLength(y: int, m: int): (len: int)
    ensures 28 <= len <= 31
  {
    if m == 2 then (if IsLeap(y) then 29 else 28)
    else if m == 4 || m == 6 || m == 9 || m == 11 then 30
    else 31
  }

  /** The day number of 1 January. */
  function DayFromYear(y: int): int {
    365 * (y - 1970) + (y - 1969) / 4 - (y - 1901) / 100 + (y - 1601) / 400
  }

  function YearDays(y: int): int {
    if IsLeap(y) then 366 else 365
  }

  /** Days between 1 January and the first of a month. */
  function DaysBeforeMonth(y: int, m: int): (d: int)
    ensures d >= 0
    decreases m
  {
    if m <= 1 then 0 else DaysBeforeMonth(y, m - 1) + MonthLength(y, m - 1)
  }

  /** The day number of a date whose month is 1 to 12; the day of the month may run over either end. */
  function DayNumber(y: int, m: int, d: int): int {
    DayFromYear(y) + DaysBeforeMonth(y, m) + d - 1
  }

  /** `Date.UTC` with a zero-based month of any size: whole years are carried out of the month first. */
  function MakeDay(y: int, month0: int, d: int): int {
    DayNumber(y + month0 / 12, month0 % 12 + 1, d)
  }

  predicate ValidCivil(c: Civil) {
    1 <= c.month <= 12 && 1 <= c.day <= MonthLength(c.year, c.month)
  }

  // ---------------------------------------------------------------- Years

  lemma FourYearStep(y: int)
    ensures (y + 1 - 1969) / 4 == (y - 1969) / 4 + (if y % 4 == 0 then 1 else 0)
  {
  }

  lemma CenturyStep(y: int)
    ensures (y + 1 - 1901) / 100 == (y - 1901) / 100 + (if y % 100 == 0 then 1 else 0)
  {
  }

  lemma FourCenturyStep(y: int)
    ensures (y + 1 - 1601) / 400 == (y - 1601) / 400 + (if y % 400 == 0 then 1 else 0)
  {
  }

  lemma FourCenturiesAreCenturies(y: int)
    ensures y % 400 == 0 ==> y % 100 == 0
    ensures y % 100 == 0 ==> y % 4 == 0
  {
  }

  lemma YearLength(y: int)
    ensures DayFromYear(y + 1) == DayFromYear(y) + YearDays(y)
  {
    FourYearStep(y);
    CenturyStep(y);
    FourCenturyStep(y);
    FourCenturiesAreCenturies(y);
  }

  /** Years start in order, at least 365 days apart. */
  lemma {:induction false} YearsAscend(y: int, z: int)
    requires y <= z
    ensures DayFromYear(y) + 365 * (z - y) <= DayFromYear(z)
    decreases z - y
  {
    if y < z {
      YearsAscend(y, z - 1);
      YearLength(z - 1);
    }
  }

  /** How far a year's days lie from a day number. */
  function YearDistance(n: int, y: int): nat {
    if n < DayFromYear(y) then DayFromYear(y) - n
    else if DayFromYear(y + 1) <= n then n + 1 - DayFromYear(y + 1)
    else 0
  }

  lemma SearchTurn(n: int, y: int)
    ensures n < DayFromYear(y) ==> YearDistance(n, y - 1) < YearDistance(n, y)
    ensures DayFromYear(y) <= n && DayFromYear(y + 1) <= n ==> YearDistance(n, y + 1) < YearDistance(n, y)
  {
    YearLength(y - 1);
    YearLength(y);
    YearLength(y + 1);
  }

  /** The year whose days include n, looked for from a starting year. */
  function YearSearch(n: int, y: int): (r: int)
    ensures DayFromYear(r) <= n < DayFromYear(r + 1)
    decreases YearDistance(n, y)
  {
    SearchTurn(n, y);
    if n < DayFromYear(y) then YearSearch(n, y - 1)
    else if DayFromYear(y + 1) <= n then YearSearch(n, y + 1)
    else y
  }

  /** `getUTCFullYear`: the largest year that has begun by day n. */
  function YearOf(n: int): (y: int)
    ensures DayFromYear(y) <= n < DayFromYear(y + 1)
  {
    YearSearch(n, 1970)
  }

  /** The year of a day number is the one whose days it lies among, and no other. */
  lemma YearOfIs(n: int, y: int)
    ensures YearOf(n) == y <==> DayFromYear(y) <= n < DayFromYear(y + 1)
  {
    var z := YearOf(n);
    if y < z {
      YearsAscend(y + 1, z);
    } else if z < y {
      YearsAscend(z + 1, y);
    }
  }

  // ---------------------------------------------------------------- Months

  /** Where each month starts, counted out. */
  lemma MonthTable(y: int)
    ensures var leap := if IsLeap(y) then 1 else 0;
            && DaysBeforeMonth(y, 1) == 0
            && DaysBeforeMonth(y, 2) == 31
            && DaysBeforeMonth(y, 3) == 59 + leap
            && DaysBeforeMonth(y, 4) == 90 + leap
            && DaysBeforeMonth(y, 5) == 120 + leap
            && DaysBeforeMonth(y, 6) == 151 + leap
            && DaysBeforeMonth(y, 7) == 181 + leap
            && DaysBeforeMonth(y, 8) == 212 + leap
            && DaysBeforeMonth(y, 9) == 243 + leap
            && DaysBeforeMonth(y, 10) == 273 + leap
            && DaysBeforeMonth(y, 11) == 304 + leap
            && DaysBeforeMonth(y, 12) == 334 + leap
            && DaysBeforeMonth(y, 13) == 365 + leap
  {
    assert DaysBeforeMonth(y, 3) == 31 + MonthLength(y, 2);
    assert DaysBeforeMonth(y, 5) == DaysBeforeMonth(y, 4) + 30;
    assert DaysBeforeMonth(y, 7) == DaysBeforeMonth(y, 6) + 30;
    assert DaysBeforeMonth(y, 9) == DaysBeforeMonth(y, 8) + 31;
    assert DaysBeforeMonth(y, 11) == DaysBeforeMonth(y, 10) + 31;
  }

  lemma {:induction false} MonthsAscend(y: int, m: int, k: int)
    requires 1 <= m <= k
    ensures DaysBeforeMonth(y, m) <= DaysBeforeMonth(y, k)
    decreases k
  {
    if m < k {
      MonthsAscend(y, m, k - 1);
    }
  }

  /** The month containing a day of the year, looked for from a starting month. */
  function MonthSearch(y: int, offset: int, m: int): (r: int)
    requires 1 <= m <= 12 && DaysBeforeMonth(y, m) <= offset < YearDays(y)
    ensures 1 <= r <= 12
    ensures DaysBeforeMonth(y, r) <= offset < DaysBeforeMonth(y, r) + MonthLength(y, r)
    decreases 12 - m
  {
    if offset < DaysBeforeMonth(y, m) + MonthLength(y, m) then m
    else
      MonthTable(y);
      MonthSearch(y, offset, m + 1)
  }

  /** What `getUTCFullYear`, `getUTCMonth` + 1 and `getUTCDate` read back from a day number. */
  function CivilOf(n: int): (c: Civil)
    ensures ValidCivil(c) && DayNumber(c.year, c.month, c.day) == n
    ensures c.year == YearOf(n)
  {
    var y := YearOf(n);
    YearLength(y);
    var offset := n - DayFromYear(y);
    var m := MonthSearch(y, offset, 1);
    Civil(y, m, offset - DaysBeforeMonth(y, m) + 1)
  }

  lemma DayWithinYear(c: Civil)
    requires ValidCivil(c)
    ensures DayFromYear(c.year) <= DayNumber(c.year, c.month, c.day) < DayFromYear(c.year + 1)
  {
    MonthTable(c.year);
    MonthsAscend(c.year, c.month + 1, 13);
    YearLength(c.year);
  }

  lemma SameMonth(y: int, m: int, d: int, k: int, e: int)
    requires ValidCivil(Civil(y, m, d)) && ValidCivil(Civil(y, k, e))
    requires DaysBeforeMonth(y, m) + d == DaysBeforeMonth(y, k) + e
    ensures m == k && d == e
  {
    hide DayFromYear, MonthLength, IsLeap, DaysBeforeMonth;
    if m < k {
      MonthAfter(y, m);
      MonthsAscend(y, m + 1, k);
    } else if k < m {
      MonthAfter(y, k);
      MonthsAscend(y, k + 1, m);
    }
  }

  lemma MonthAfter(y: int, m: int)
    requires 1 <= m
    ensures DaysBeforeMonth(y, m + 1) == DaysBeforeMonth(y, m) + MonthLength(y, m)
  {
  }

  lemma SameYear(b: Civil, c: Civil)
    requires ValidCivil(b) && ValidCivil(c)
    requires DayNumber(b.year, b.month, b.day) == DayNumber(c.year, c.month, c.day)
    ensures b.year == c.year
  {
    hide *;
    DayWithinYear(b);
    DayWithinYear(c);
    YearOfIs(DayNumber(b.year, b.month, b.day), b.year);
    YearOfIs(DayNumber(b.year, b.month, b.day), c.year);
  }

  /** No two real dates share a day number. */
  lemma DatesAreDistinct(b: Civil, c: Civil)
    requires ValidCivil(b) && ValidCivil(c)
    requires DayNumber(b.year, b.month, b.day) == DayNumber(c.year, c.month, c.day)
    ensures b == c
  {
    SameYear(b, c);
    SameMonth(b.year, b.month, b.day, c.month, c.day);
  }

  /** Every real date is read back from its day number exactly: with `CivilOf`'s contract, a bijection. */
  lemma DayRoundTrip(c: Civil)
    requires ValidCivil(c)
    ensures CivilOf(DayNumber(c.year, c.month, c.day)) == c
  {
    DatesAreDistinct(CivilOf(DayNumber(c.year, c.month, c.day)), c);
  }

  // ---------------------------------------------------------------- Weekdays

  /** `getUTCDay`: 0 for Sunday. 1 January 1970 was a Thursday. */
  function Weekday(n: int): (w: int)
    ensures 0 <= w <= 6
  {
    (n + 4) % 7
  }
}
