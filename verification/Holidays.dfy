/**
 * The statutory holidays used for business-day counting: fixed dates, "nth weekday" and "Monday before"
 * dates, and Good Friday from the anonymous Gregorian Easter computation.
 */
module Holidays {
  import opened Gregorian
  import opened IsoText

  const SUNDAY := 0
  const MONDAY := 1
  const FRIDAY := 5
  const SATURDAY := 6

  function NthWeekday(y: int, m: int, weekday: int, nth: int): int {
    var first := DayNumber(y, m, 1);
    first + ((weekday - Weekday(first) + 7) % 7 + (nth - 1) * 7)
  }

  function MondayBefore(y: int, m: int, d: int): int {
    var target := DayNumber(y, m, d);
    var back := (Weekday(target) + 6) % 7;
    target - (if back == 0 then 7 else back)
  }

  /** The intermediate `h`: days from 21 March to the tabular full moon, before its correction. */
  function MoonOffset(y: int): (h: int)
    ensures 0 <= h <= 29
  {
    var a, b := y % 19, y / 100;
    var d, f := b / 4, (b + 8) / 25;
    var g := (b - f + 1) / 3;
    (19 * a + b - d - g + 15) % 30
  }

  /** The intermediate `l`: how far the first Sunday lies after the day following the full moon. */
  function SundayOffset(y: int): (l: int)
    ensures 0 <= l <= 6
  {
    var b, c := y / 100, y % 100;
    var e, i, k := b % 4, c / 4, c % 4;
    (32 + 2 * e + 2 * i - MoonOffset(y) - k) % 7
  }

  function EasterSunday(y: int): int {
    var a, h, l := y % 19, MoonOffset(y), SundayOffset(y);
    var m := (a + 11 * h + 22 * l) / 451;
    var month := (h + l - 7 * m + 114) / 31;
    var day := (h + l - 7 * m + 114) % 31 + 1;
    DayNumber(y, month, day)
  }

  function GoodFriday(y: int): int {
    EasterSunday(y) - 2
  }

  function FederalHolidays(y: int): seq<int> {
    [ DayNumber(y, 1, 1),
      GoodFriday(y),
      MondayBefore(y, 5, 25),
      DayNumber(y, 7, 1),
      NthWeekday(y, 9, MONDAY, 1),
      DayNumber(y, 9, 30),
      NthWeekday(y, 10, MONDAY, 2),
      DayNumber(y, 11, 11),
      DayNumber(y, 12, 25),
      DayNumber(y, 12, 26) ]
  }

  predicate IsWeekend(n: int) {
    Weekday(n) == SUNDAY || Weekday(n) == SATURDAY
  }

  predicate IsHoliday(n: int) {
    n in FederalHolidays(YearOf(n))
  }

  predicate IsBusinessDay(n: int) {
    !IsWeekend(n) && !IsHoliday(n)
  }

  /** The comparison the source makes: some holiday of the date's own year has the same ISO text. */
  predicate HasHolidayText(n: int) {
    exists h | h in FederalHolidays(YearOf(n)) :: ToIsoDate(h) == ToIsoDate(n)
  }

  lemma HolidayByText(n: int)
    requires 0 <= YearOf(n) <= 9999
    ensures HasHolidayText(n) <==> IsHoliday(n)
  {
    TextIdentifiesDay(n);
  }

  // ---------------------------------------------------------------- Easter

  /**
   * The ecclesiastical full moon by which Easter is defined, from the epact: the golden number G, the century C, the
   * solar correction X and the lunar correction Z give the age of the moon at the new year, and the tables move the
   * full moon a day earlier where two years of the nineteen would otherwise share it or it would come too late.
   */
  function PaschalFullMoon(y: int): int {
    var G, C := y % 19 + 1, y / 100 + 1;
    var X, Z := 3 * C / 4 - 12, (8 * C + 5) / 25 - 5;
    var E := (11 * G + 20 + Z - X) % 30;
    DayNumber(y, 3, 21) + (23 - E) % 30 - (if E == 24 || (E == 25 && G > 11) then 1 else 0)
  }

  /** The solar and lunar corrections of a century, as the Easter computation has them. */
  lemma CenturyCorrections(b: int)
    ensures 3 * (b + 1) / 4 == b - b / 4
    ensures (8 * (b + 1) + 5) / 25 == (b - (b + 8) / 25 + 1) / 3
  {
    var q, r := b / 25, b % 25;
    assert (b + 8) / 25 == q + (r + 8) / 25;
    assert (8 * b + 13) / 25 == 8 * q + (8 * r + 13) / 25;
    assert (b - (b + 8) / 25 + 1) / 3 == 8 * q + (r - (r + 8) / 25 + 1) / 3;
    CorrectionsWithin(r);
  }

  lemma CorrectionsWithin(r: int)
    requires 0 <= r < 25
    ensures (8 * r + 13) / 25 == (r - (r + 8) / 25 + 1) / 3
  {
  }

  /** The offset the computation works out is the definition's, and moves where the definition's does. */
  lemma FullMoonIs(y: int)
    ensures var a, h := y % 19, MoonOffset(y);
            PaschalFullMoon(y) == DayNumber(y, 3, 21) + (if h == 29 || (h == 28 && a > 10) then h - 1 else h)
  {
    hide DayNumber;
    var a, b := y % 19, y / 100;
    CenturyCorrections(b);
    var X, Z := 3 * (b + 1) / 4 - 12, (8 * (b + 1) + 5) / 25 - 5;
    var base := b - b / 4 - (b - (b + 8) / 25 + 1) / 3;
    assert X - Z == base - 7;
    SameMoon(a, base);
  }

  lemma SameMoon(a: int, base: int)
    requires 0 <= a <= 18
    ensures var E := (11 * (a + 1) + 20 - (base - 7)) % 30;
            (23 - E) % 30 == (19 * a + base + 15) % 30
    ensures var E := (11 * (a + 1) + 20 - (base - 7)) % 30;
            && (E == 24 <==> (19 * a + base + 15) % 30 == 29)
            && (E == 25 <==> (19 * a + base + 15) % 30 == 28)
  {
    var n := 11 * (a + 1) + 20 - (base - 7);
    var E, q := n % 30, n / 30;
    assert 19 * a + base + 15 == 23 - E + 30 * (a + 1 - q);
    if E <= 23 {
      RemainderIs(19 * a + base + 15, a + 1 - q, 23 - E);
    } else {
      RemainderIs(19 * a + base + 15, a - q, 53 - E);
    }
  }

  lemma RemainderIs(n: int, q: int, r: int)
    requires n == 30 * q + r && 0 <= r < 30
    ensures n % 30 == r
  {
  }

  lemma EasterCorrection(a: int, h: int, l: int, m: int)
    requires 0 <= a <= 18 && 0 <= h <= 29 && 0 <= l <= 6
    requires m == (a + 11 * h + 22 * l) / 451
    ensures m == if l == 6 && (h == 29 || (h == 28 && a > 10)) then 1 else 0
    ensures 0 <= h + l - 7 * m <= 34
  {
  }

  /** The month and day Easter is built from are the (h + l − 7m)th day after 22 March. */
  lemma EasterFromMarch(y: int)
    ensures EasterSunday(y) == DayNumber(y, 3, 22) + MoonOffset(y) + SundayOffset(y)
                               - 7 * ((y % 19 + 11 * MoonOffset(y) + 22 * SundayOffset(y)) / 451)
    ensures DayNumber(y, 3, 22) <= EasterSunday(y) <= DayNumber(y, 4, 25)
  {
    MonthTable(y);
    var a, h, l := y % 19, MoonOffset(y), SundayOffset(y);
    var m := (a + 11 * h + 22 * l) / 451;
    EasterCorrection(a, h, l, m);
    var x := h + l - 7 * m;
    MarchOrApril(x);
    assert DayNumber(y, 4, 1) == DayNumber(y, 3, 32);
  }

  lemma MarchOrApril(x: int)
    requires 0 <= x <= 34
    ensures (x + 114) / 31 == (if x <= 9 then 3 else 4)
    ensures (x + 114) % 31 + 1 == (if x <= 9 then x + 22 else x - 9)
  {
  }

  lemma QuotientsOfYear(y: int)
    ensures (y + 1 - 1969) / 4 == 25 * (y / 100) + y % 100 / 4 - 492
    ensures (y + 1 - 1901) / 100 == y / 100 - 19
    ensures (y + 1 - 1601) / 400 == y / 100 / 4 - 4
  {
  }

  /** 22 March as a number, in the pieces the Easter computation cuts the year into. */
  lemma MarchDayNumber(y: int)
    ensures DayNumber(y, 3, 22) == 365 * y + 24 * (y / 100) + y % 100 / 4 + y / 100 / 4 - 719447
  {
    MonthTable(y);
    YearLength(y);
    QuotientsOfYear(y);
  }

  /** The congruence behind the computation: 22 March plus h + l is a Sunday, whatever the year. */
  lemma SundayCongruence(y: int)
    ensures Weekday(DayNumber(y, 3, 22) + MoonOffset(y) + SundayOffset(y)) == SUNDAY
  {
    MarchDayNumber(y);
    CenturyPieces(y, y / 100, y % 100, MoonOffset(y), SundayOffset(y), DayNumber(y, 3, 22));
  }

  lemma CenturyPieces(y: int, b: int, c: int, h: int, l: int, march: int)
    requires y == 100 * b + c
    requires march == 365 * y + 24 * b + c / 4 + b / 4 - 719447
    requires l == (32 + 2 * (b % 4) + 2 * (c / 4) - h - c % 4) % 7
    ensures (march + h + l + 4) % 7 == 0
  {
    var d, e, i, k := b / 4, b % 4, c / 4, c % 4;
    var q := (32 + 2 * e + 2 * i - h - k) / 7;
    MultipleOfSeven(march + h + l + 4, 20871 * d + 5218 * e + 209 * i + 52 * k - 102773 - q);
  }

  lemma MultipleOfSeven(t: int, q: int)
    requires t == 7 * q
    ensures t % 7 == 0
  {
  }

  lemma SpringIsInYear(y: int, n: int)
    requires DayNumber(y, 3, 20) <= n <= DayNumber(y, 4, 25)
    ensures YearOf(n) == y
  {
    MonthTable(y);
    YearLength(y);
    YearOfIs(n, y);
  }

  /** Easter is a Sunday from 22 March to 25 April of its own year. */
  lemma EasterIsSunday(y: int)
    ensures Weekday(EasterSunday(y)) == SUNDAY
    ensures YearOf(EasterSunday(y)) == y
    ensures DayNumber(y, 3, 22) <= EasterSunday(y) <= DayNumber(y, 4, 25)
  {
    MonthTable(y);
    EasterFromMarch(y);
    SundayCongruence(y);
    SpringIsInYear(y, EasterSunday(y));
    WeekLater(DayNumber(y, 3, 22) + MoonOffset(y) + SundayOffset(y),
              -((y % 19 + 11 * MoonOffset(y) + 22 * SundayOffset(y)) / 451));
  }

  lemma WeekLater(n: int, k: int)
    ensures Weekday(n + 7 * k) == Weekday(n)
  {
  }

  /** The computation refines the definition: Easter is the first Sunday strictly after the full moon. */
  lemma EasterFollowsFullMoon(y: int)
    ensures PaschalFullMoon(y) < EasterSunday(y) <= PaschalFullMoon(y) + 7
    ensures Weekday(EasterSunday(y)) == SUNDAY
    ensures forall n :: PaschalFullMoon(y) < n < EasterSunday(y) ==> Weekday(n) != SUNDAY
  {
    hide EasterSunday, SundayOffset, MoonOffset, PaschalFullMoon;
    MonthTable(y);
    FullMoonIs(y);
    EasterFromMarch(y);
    EasterIsSunday(y);
    EasterCorrection(y % 19, MoonOffset(y), SundayOffset(y),
                     (y % 19 + 11 * MoonOffset(y) + 22 * SundayOffset(y)) / 451);
    assert DayNumber(y, 3, 22) == DayNumber(y, 3, 21) + 1;
    SundaysAWeekApart(EasterSunday(y));
  }

  lemma SundaysAWeekApart(s: int)
    requires Weekday(s) == SUNDAY
    ensures forall n :: s - 7 < n < s ==> Weekday(n) != SUNDAY
  {
  }

  lemma TwoDaysEarlier(s: int)
    requires Weekday(s) == SUNDAY
    ensures Weekday(s - 2) == FRIDAY
  {
  }

  /** Good Friday is a Friday from 20 March to 23 April, so it is on the list of its own year. */
  lemma GoodFridayIsListed(y: int)
    ensures Weekday(GoodFriday(y)) == FRIDAY
    ensures DayNumber(y, 3, 20) <= GoodFriday(y) <= DayNumber(y, 4, 23)
    ensures IsHoliday(GoodFriday(y)) && !IsBusinessDay(GoodFriday(y))
  {
    MonthTable(y);
    EasterIsSunday(y);
    TwoDaysEarlier(EasterSunday(y));
    SpringIsInYear(y, GoodFriday(y));
    assert FederalHolidays(y)[1] == GoodFriday(y);
  }

  // ---------------------------------------------------------------- Movable Mondays

  /** `nthWeekday` finds the nth such weekday of the month: the right weekday, in its own week. */
  lemma NthWeekdayIs(y: int, m: int, weekday: int, nth: int)
    requires 0 <= weekday <= 6 && 1 <= nth
    ensures Weekday(NthWeekday(y, m, weekday, nth)) == weekday
    ensures DayNumber(y, m, 7 * nth - 6) <= NthWeekday(y, m, weekday, nth) <= DayNumber(y, m, 7 * nth)
  {
    var first := DayNumber(y, m, 1);
    var offset := (weekday - Weekday(first) + 7) % 7;
    FirstWeekday(first, weekday);
    WeekLater(first + offset, nth - 1);
    assert NthWeekday(y, m, weekday, nth) == first + offset + 7 * (nth - 1);
    assert DayNumber(y, m, 7 * nth) == first + 7 * nth - 1;
  }

  lemma FirstWeekday(first: int, weekday: int)
    requires 0 <= weekday <= 6
    ensures Weekday(first + (weekday - Weekday(first) + 7) % 7) == weekday
  {
  }

  /** `mondayBefore` finds the last Monday strictly before the date. */
  lemma MondayBeforeIs(y: int, m: int, d: int)
    ensures Weekday(MondayBefore(y, m, d)) == MONDAY
    ensures DayNumber(y, m, d) - 7 <= MondayBefore(y, m, d) < DayNumber(y, m, d)
  {
  }

  // ---------------------------------------------------------------- Spacing

  /** Where the holidays of a year fall, counted from its 1 January. */
  predicate Spaced(h: seq<int>, jan: int, leap: int) {
    && |h| == 10 && 0 <= leap <= 1
    && h[0] == jan
    && jan + leap + 78 <= h[1] <= jan + leap + 112
    && jan + leap + 137 <= h[2] <= jan + leap + 143
    && h[3] == jan + leap + 181
    && jan + leap + 243 <= h[4] <= jan + leap + 249
    && h[5] == jan + leap + 272
    && jan + leap + 280 <= h[6] <= jan + leap + 286
    && h[7] == jan + leap + 314
    && h[8] == jan + leap + 358
    && h[9] == jan + leap + 359
  }

  lemma HolidaysAreSpaced(y: int)
    ensures Spaced(FederalHolidays(y), DayFromYear(y), if IsLeap(y) then 1 else 0)
  {
    MonthTable(y);
    GoodFridayIsListed(y);
    MondayBeforeIs(y, 5, 25);
    NthWeekdayIs(y, 9, MONDAY, 1);
    NthWeekdayIs(y, 10, MONDAY, 2);
  }

  /** The three movable holidays besides Good Friday are Mondays, and with their ranges there is one such Monday for each. */
  lemma MovableHolidaysAreMondays(y: int)
    ensures var h := FederalHolidays(y);
            && Weekday(h[2]) == Weekday(h[4]) == Weekday(h[6]) == MONDAY
            && DayNumber(y, 5, 18) <= h[2] <= DayNumber(y, 5, 24)
            && DayNumber(y, 9, 1) <= h[4] <= DayNumber(y, 9, 7)
            && DayNumber(y, 10, 8) <= h[6] <= DayNumber(y, 10, 14)
  {
    MondayBeforeIs(y, 5, 25);
    NthWeekdayIs(y, 9, MONDAY, 1);
    NthWeekdayIs(y, 10, MONDAY, 2);
  }

  /** The days of the week are in step with the world's: 1 January 2000 was a Saturday. */
  lemma WeekIsInStep()
    ensures Weekday(DayNumber(2000, 1, 1)) == SATURDAY && Weekday(DayNumber(2000, 1, 2)) == SUNDAY
    ensures Weekday(DayNumber(2000, 1, 3)) == MONDAY && Weekday(DayNumber(2000, 1, 7)) == FRIDAY
  {
    hide Weekday;
    assert DaysBeforeMonth(2000, 1) == 0;
    SaturdaySunday(10957);
  }

  lemma SaturdaySunday(n: int)
    requires n == 10957
    ensures Weekday(n) == SATURDAY && Weekday(n + 1) == SUNDAY && Weekday(n + 2) == MONDAY && Weekday(n + 6) == FRIDAY
  {
  }

  lemma WeekGoesOn(n: int)
    ensures Weekday(n + 1) == if Weekday(n) == SATURDAY then SUNDAY else Weekday(n) + 1
  {
  }

  /** Every holiday on a year's list falls in that year, so a date need only consult its own year. */
  lemma HolidaysStayInTheirYear(y: int)
    ensures forall h | h in FederalHolidays(y) :: YearOf(h) == y && IsHoliday(h)
  {
    HolidaysAreSpaced(y);
    YearLength(y);
    forall h | h in FederalHolidays(y)
      ensures YearOf(h) == y
    {
      YearOfIs(h, y);
    }
  }
}
