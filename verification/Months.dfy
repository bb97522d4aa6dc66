/**
 * Adding calendar months with clamping to the end of the target month, and what it does to the order
 * of dates, to repeated additions and to additions that are undone.
 */
module Months {
  import opened Basics
  import opened Gregorian

  /** The remainder operator of the source language, which truncates toward zero. */
  function Rem(a: int, b: int): int
    requires b > 0
  {
    if a >= 0 then a % b else -(-a % b)
  }

  /** `addDays`: the day of the month is pushed past its end and the platform carries it. */
  function AddDays(n: int, days: int): int {
    var c := CivilOf(n);
    MakeDay(c.year, c.month - 1, c.day + days)
  }

  /** `daysInMonth`: the day before the first of the next month. */
  function DaysInMonth(y: int, month0: int): int {
    CivilOf(MakeDay(y, month0 + 1, 0)).day
  }

  function AddMonths(n: int, months: int): int {
    var c := CivilOf(n);
    var month := c.month - 1 + months;
    var targetYear := c.year + month / 12;
    var targetMonth := Rem(Rem(month, 12) + 12, 12);
    var last := DaysInMonth(targetYear, targetMonth);
    MakeDay(targetYear, targetMonth, if c.day < last then c.day else last)
  }

  function EndOfMonth(n: int): int {
    var c := CivilOf(n);
    MakeDay(c.year, c.month - 1, DaysInMonth(c.year, c.month - 1))
  }

  lemma AddDaysIsAddition(n: int, days: int)
    ensures AddDays(n, days) == n + days
  {
    hide DayFromYear, DaysBeforeMonth, CivilOf, MonthLength, YearOf;
  }

  // ---------------------------------------------------------------- Month indices

  /** Months since year 0: the quantity a month addition shifts. */
  function MonthIndex(n: int): int {
    12 * CivilOf(n).year + CivilOf(n).month - 1
  }

  function LengthAt(i: int): (len: int)
    ensures 28 <= len <= 31
  {
    MonthLength(i / 12, i % 12 + 1)
  }

  function MonthStart(i: int): int {
    DayNumber(i / 12, i % 12 + 1, 1)
  }

  lemma DecemberOrNot(i: int)
    ensures (i + 1) / 12 == (if i % 12 == 11 then i / 12 + 1 else i / 12)
    ensures (i + 1) % 12 == (if i % 12 == 11 then 0 else i % 12 + 1)
  {
  }

  lemma MonthStartsAbut(i: int)
    ensures MonthStart(i + 1) == MonthStart(i) + LengthAt(i)
  {
    DecemberOrNot(i);
    MonthTable(i / 12);
    YearLength(i / 12);
  }

  lemma {:induction false} MonthStartsAscend(i: int, j: int)
    requires i <= j
    ensures MonthStart(i) + 28 * (j - i) <= MonthStart(j)
    decreases j - i
  {
    hide MonthStart, LengthAt;
    if i < j {
      MonthStartsAscend(i, j - 1);
      MonthStartsAbut(j - 1);
    }
  }

  lemma IndexOfYearMonth(y: int, m: int)
    requires 1 <= m <= 12
    ensures (12 * y + m - 1) / 12 == y && (12 * y + m - 1) % 12 + 1 == m
  {
  }

  /** Every date is its own day of its own month. */
  lemma DateFromIndex(n: int)
    ensures n == MonthStart(MonthIndex(n)) + CivilOf(n).day - 1
    ensures 1 <= CivilOf(n).day <= LengthAt(MonthIndex(n))
  {
    hide CivilOf, DayFromYear, DaysBeforeMonth, MonthLength;
    IndexOfYearMonth(CivilOf(n).year, CivilOf(n).month);
  }

  lemma IndexOfDate(i: int, d: int)
    requires 1 <= d <= LengthAt(i)
    ensures MonthIndex(MonthStart(i) + d - 1) == i && CivilOf(MonthStart(i) + d - 1).day == d
  {
    hide CivilOf, DayFromYear, DaysBeforeMonth, MonthLength;
    DayRoundTrip(Civil(i / 12, i % 12 + 1, d));
    assert MonthStart(i) + d - 1 == DayNumber(i / 12, i % 12 + 1, d);
  }

  lemma MakeDayAt(y: int, month0: int, d: int)
    requires 0 <= month0 <= 11
    ensures MakeDay(y, month0, d) == MonthStart(12 * y + month0) + d - 1
  {
    hide DayFromYear, DaysBeforeMonth;
    IndexOfYearMonth(y, month0 + 1);
  }

  lemma DayZero(y: int, month0: int)
    requires 0 <= month0 <= 11
    ensures MakeDay(y, month0 + 1, 0) == MonthStart(12 * y + month0 + 1) - 1
  {
    hide DayFromYear, DaysBeforeMonth;
    var i := 12 * y + month0;
    IndexOfYearMonth(y, month0 + 1);
    DecemberOrNot(i);
  }

  /** `daysInMonth` is the true Gregorian month length. */
  lemma DaysInMonthIsLength(y: int, month0: int)
    requires 0 <= month0 <= 11
    ensures DaysInMonth(y, month0) == LengthAt(12 * y + month0) == MonthLength(y, month0 + 1)
  {
    hide MonthStart, MonthIndex, MakeDay, CivilOf, MonthLength, DayNumber, ValidCivil, YearOf;
    var i := 12 * y + month0;
    DayZero(y, month0);
    MonthStartsAbut(i);
    IndexOfDate(i, LengthAt(i));
    IndexOfYearMonth(y, month0 + 1);
  }

  lemma WholeMonths(y: int, month: int)
    ensures Rem(Rem(month, 12) + 12, 12) == month % 12
    ensures 12 * (y + month / 12) + month % 12 == 12 * y + month
  {
  }

  /** `addMonths` with its remainders resolved. */
  lemma AddMonthsUnfolds(n: int, c: Civil, months: int)
    requires c == CivilOf(n)
    ensures var i := 12 * c.year + c.month - 1 + months;
            AddMonths(n, months) == MonthStart(i) + Min(c.day, LengthAt(i)) - 1
  {
    hide MonthStart, MakeDay, LengthAt, CivilOf, DaysInMonth, Rem;
    var month := c.month - 1 + months;
    var y, m := c.year + month / 12, month % 12;
    WholeMonths(c.year, month);
    DaysInMonthIsLength(y, m);
    MakeDayAt(y, m, Min(c.day, DaysInMonth(y, m)));
  }

  /**
   * Adding months of either sign moves the month index by exactly that many and keeps the day of the
   * month, clamped to the true length of the target month.
   */
  lemma AddMonthsIsClamped(n: int, months: int)
    ensures MonthIndex(AddMonths(n, months)) == MonthIndex(n) + months
    ensures CivilOf(AddMonths(n, months)).day == Min(CivilOf(n).day, LengthAt(MonthIndex(n) + months))
  {
    hide AddMonths, MonthStart, LengthAt, CivilOf, ValidCivil, DayNumber, YearOf;
    AddMonthsUnfolds(n, CivilOf(n), months);
    DateFromIndex(n);
    var i := MonthIndex(n) + months;
    IndexOfDate(i, Min(CivilOf(n).day, LengthAt(i)));
  }

  lemma EndOfMonthUnfolds(n: int, c: Civil)
    requires c == CivilOf(n)
    ensures var i := 12 * c.year + c.month - 1;
            EndOfMonth(n) == MonthStart(i) + LengthAt(i) - 1
  {
    hide MonthStart, LengthAt, MakeDay, CivilOf, DaysInMonth;
    DaysInMonthIsLength(c.year, c.month - 1);
    MakeDayAt(c.year, c.month - 1, DaysInMonth(c.year, c.month - 1));
  }

  /** `endOfMonth` is the last date of the same month. */
  lemma EndOfMonthIsLast(n: int)
    ensures MonthIndex(EndOfMonth(n)) == MonthIndex(n)
    ensures CivilOf(EndOfMonth(n)).day == LengthAt(MonthIndex(n))
    ensures n <= EndOfMonth(n)
  {
    hide MonthStart, LengthAt, EndOfMonth, CivilOf, ValidCivil, DayNumber, YearOf;
    EndOfMonthUnfolds(n, CivilOf(n));
    IndexOfDate(MonthIndex(n), LengthAt(MonthIndex(n)));
    DateFromIndex(n);
  }

  // ---------------------------------------------------------------- Laws

  /** Dates are ordered by month and then by day of the month. */
  lemma DateOrder(n: int, k: int)
    ensures n <= k <==> MonthIndex(n) < MonthIndex(k)
                        || (MonthIndex(n) == MonthIndex(k) && CivilOf(n).day <= CivilOf(k).day)
  {
    hide *;
    DateFromIndex(n);
    DateFromIndex(k);
    var i, j := MonthIndex(n), MonthIndex(k);
    if i < j {
      MonthStartsAscend(i + 1, j);
      MonthStartsAbut(i);
    } else if j < i {
      MonthStartsAscend(j + 1, i);
      MonthStartsAbut(j);
    }
  }

  lemma SameDate(n: int, k: int)
    ensures n == k <==> MonthIndex(n) == MonthIndex(k) && CivilOf(n).day == CivilOf(k).day
  {
    DateFromIndex(n);
    DateFromIndex(k);
  }

  lemma AddMonthsMonotone(n: int, k: int, months: int)
    requires n <= k
    ensures AddMonths(n, months) <= AddMonths(k, months)
  {
    hide *;
    AddMonthsIsClamped(n, months);
    AddMonthsIsClamped(k, months);
    DateOrder(n, k);
    DateOrder(AddMonths(n, months), AddMonths(k, months));
    MinIs(CivilOf(n).day, LengthAt(MonthIndex(n) + months));
    MinIs(CivilOf(k).day, LengthAt(MonthIndex(k) + months));
  }

  lemma MinIs(a: int, b: int)
    ensures Min(a, b) == if a < b then a else b
  {
  }

  lemma AddMonthsStrict(n: int, a: int, b: int)
    requires a < b
    ensures AddMonths(n, a) < AddMonths(n, b)
  {
    hide *;
    AddMonthsIsClamped(n, a);
    AddMonthsIsClamped(n, b);
    DateOrder(AddMonths(n, b), AddMonths(n, a));
  }

  /**
   * Two additions never land later than one of their sum, and agree exactly when the first did not
   * clamp below what the second allows; in particular for any day up to the 28th.
   */
  lemma AddMonthsTwice(n: int, a: int, b: int)
    ensures AddMonths(AddMonths(n, a), b) <= AddMonths(n, a + b)
    ensures var first, second := LengthAt(MonthIndex(n) + a), LengthAt(MonthIndex(n) + a + b);
            AddMonths(AddMonths(n, a), b) == AddMonths(n, a + b)
            <==> CivilOf(n).day <= first || second <= first
    ensures CivilOf(n).day <= 28 ==> AddMonths(AddMonths(n, a), b) == AddMonths(n, a + b)
  {
    hide *;
    AddMonthsIsClamped(n, a);
    AddMonthsIsClamped(AddMonths(n, a), b);
    AddMonthsIsClamped(n, a + b);
    DateOrder(AddMonths(AddMonths(n, a), b), AddMonths(n, a + b));
    SameDate(AddMonths(AddMonths(n, a), b), AddMonths(n, a + b));
    var first, second := LengthAt(MonthIndex(n) + a), LengthAt(MonthIndex(n) + a + b);
    assert MonthIndex(n) + a + b == MonthIndex(n) + (a + b);
    MinIs(CivilOf(n).day, first);
    MinIs(CivilOf(n).day, second);
    MinIs(Min(CivilOf(n).day, first), second);
  }

  /** Adding months and taking them off again returns the date exactly when its day exists in between. */
  lemma AddMonthsUndone(n: int, months: int)
    ensures AddMonths(AddMonths(n, months), -months) == n
            <==> CivilOf(n).day <= LengthAt(MonthIndex(n) + months)
    ensures CivilOf(n).day <= 28 ==> AddMonths(AddMonths(n, months), -months) == n
  {
    hide *;
    AddMonthsIsClamped(n, months);
    AddMonthsIsClamped(AddMonths(n, months), -months);
    SameDate(AddMonths(AddMonths(n, months), -months), n);
    DateFromIndex(n);
    var there := LengthAt(MonthIndex(n) + months);
    assert MonthIndex(n) + months + -months == MonthIndex(n);
    MinIs(CivilOf(n).day, there);
    MinIs(Min(CivilOf(n).day, there), LengthAt(MonthIndex(n)));
  }

  /** Three months are at least 81 days, wherever the clamping falls. */
  lemma ThreeMonthsApart(n: int, a: int)
    ensures AddMonths(n, a) + 81 <= AddMonths(n, a + 3)
  {
    hide *;
    AddMonthsIsClamped(n, a);
    AddMonthsIsClamped(n, a + 3);
    DateFromIndex(AddMonths(n, a));
    DateFromIndex(AddMonths(n, a + 3));
    DateFromIndex(n);
    MonthStartsAscend(MonthIndex(n) + a, MonthIndex(n) + (a + 3));
    MinIs(CivilOf(n).day, LengthAt(MonthIndex(n) + a));
    MinIs(CivilOf(n).day, LengthAt(MonthIndex(n) + (a + 3)));
  }
}
